# maillog in Dafny

maillog is a small daemon that collects log events from local programs over a
Unix socket. It buffers them in a JSON file and mails one summary of
everything buffered once a day, at a configured time. This project models the
core of that daemon as pure Dafny functions over immutable values, and proves
what each piece promises.

The model covers these pieces:

- **The file-backed buffer** (`MessageBuffer`).
  - It restores from its file, appends and persists, reads everything, and clears.
  - File I/O is a `BufferFile` value (absent, holding a list, or unreadable).
  - The result of each write is a `WriteOutcome` input: written, open failed, or dump failed after truncation.
- **The two defective `EventBuffer` copies** (`EventBuffer`).
  - Their constructor assigns `_data`, but every other method uses `_event_buffer`.
  - A corrected constructor is modelled beside them.
- **The wire format** (`Framing`).
  - A 4-byte big-endian length prefix, then the payload.
  - Serialisers (pickle, JSON) are an abstract `Codec`.
- **The API messages** in two generations.
  - `ApiMessages`: four pickled message classes.
  - `LegacyApiMessage`: a single command string.
- **The three request handlers.**
  - `Handler`: the pickled-message handler.
  - `ApiServer`: the dict-based JSON server.
  - `StubServer`: the framed server whose dispatch is commented out.
  - Each handler returns an `Exchange`: the state afterwards, the reply, whether an exception escaped, and whether the socket was closed.
  - For `ApiServer` and `StubServer` the state is the server's long-lived buffer. `Handler` opens a fresh buffer session per request, so its state is the buffer file.
- **The scheduler arithmetic** (`Schedule`).
  - The next target instant and the wait until it, in microseconds.
  - The `"Xh Ym Zs"` rendering of that wait.
- **The summary formatter** (`Format`).
  - Events are grouped by process, in dict insertion order.
  - Groups are stable-sorted on the first event's timestamp.
  - One header line per group goes into the result.
- **The summary cycle** (`Summary`).
  - One session reads the buffer, the text is mailed, and a second session clears the buffer.
  - Other threads may insert between the two sessions.

Helper modules:

- `Wrappers`: `Option` and `Result`.
- `Text`: Python's `str()` of an integer and its `<` on strings.
- `Values`: the JSON scalars a request decodes to.
- `Events`: the `MaillogEvent` record.
- `Connection`: the `Exchange` record.

## Model

| member | source | states |
|---|---|---|
| MessageBuffer.Restore | src/maillog/message.py:46-54 | An absent file gives the empty list. A stored list is taken as it is, so memory and file agree. An undecodable file is a load error, with no fallback to an empty buffer. |
| MessageBuffer.Persist | src/maillog/message.py:56-59 | The list is unchanged. The call succeeds exactly when the write completes, and then the file holds the list. A failed open leaves the file as it was. A failed dump leaves the file truncated and unreadable. |
| MessageBuffer.Insert | src/maillog/message.py:61-65 | The message is appended after the earlier ones, which are kept unchanged. The call succeeds exactly when the persist does, and then the file holds the new list. A failed open leaves the file untouched. |
| MessageBuffer.Clear | src/maillog/message.py:72-76 | Reading everything afterwards gives the empty list. The call succeeds exactly when the write completes, and then the file holds the empty list. |
| MessageBuffer.InsertsAccumulate | src/maillog/message.py:61-70 | After any run of inserts, reading everything gives the old list followed by the inserted messages, in order, whatever the writes did. If every write succeeded, the file holds the same list. |
| MessageBuffer.FreshBufferHistory | src/maillog/message.py:46-76 | Starting from an absent file, n inserts read back as exactly those n messages, and a clear then reads back as empty. |
| MessageBuffer.InsertDurable | src/maillog/message.py:46-65 | After a successful insert, a buffer freshly restored from the file holds the old list followed by the new message. |
| MessageBuffer.FailedInsertDiverges | src/maillog/message.py:61-65 | When the persist fails, the message is in memory at the end of the list, but memory and file no longer agree. |
| EventBuffer.Construct | src/maillog/event/buffer.py:22-33 | Construction succeeds only for an absent file, and then `_data` is empty while `_event_buffer` is unset. An existing file ends in an AttributeError from the log call. An undecodable file is a load error. |
| EventBuffer.Persist | src/maillog/event/buffer.py:35-38 | Succeeds exactly when the write completes and `_event_buffer` is set, and then the file holds that list. A failed open leaves the file as it was. |
| EventBuffer.Insert | src/maillog/event/buffer.py:40-44 | With `_event_buffer` unset, the call raises and changes nothing. Otherwise the event is appended, and the call succeeds exactly when the write does. |
| EventBuffer.GetAll | src/maillog/event/buffer.py:46-49 | Returns a list exactly when `_event_buffer` is set. |
| EventBuffer.Clear | src/maillog/event/buffer.py:51-55 | `_event_buffer` becomes empty. The call succeeds exactly when the write does, and then the file holds the empty list. |
| EventBuffer.FreshInstanceFails | src/maillog/event/event.py:45-78 | On an instance built from an absent file, insert raises and leaves the instance unchanged, and get_all_messages raises. Clear works whenever the write does. |
| EventBuffer.ClearRepairsInstance | src/maillog/event/event.py:63-78 | After any clear, an insert followed by get_all_messages returns exactly the inserted event. |
| EventBuffer.InitialisedMatchesMessageBuffer | src/maillog/event/event.py:58-78 | Once `_event_buffer` is set, insert, clear and get_all_messages do what the message buffer's do: same list, same file, same success. |
| EventBuffer.ConstructFixed | src/maillog/event/event.py:45-56 | The corrected constructor succeeds unless the file is undecodable. It puts the stored list, or the empty list for an absent file, into `_event_buffer`. |
| EventBuffer.FixedConstructionWorks | src/maillog/event/event.py:45-72 | With the corrected constructor, an insert then get_all_messages returns the restored list followed by the event. |
| Framing.FromBytes | src/maillog/api/socket.py:72 | Reading n bytes big-endian gives a number below 256^n. |
| Framing.ToBytes | src/maillog/api/socket.py:61 | Succeeds exactly when the number fits the width. On success there are exactly `width` bytes, which read back as the number. Otherwise it fails with OverflowError. |
| Framing.BigEndianPrefix | src/maillog/api/socket.py:71-72 | A 4-byte prefix reads as b0·2^24 + b1·2^16 + b2·2^8 + b3. |
| Framing.Encode | src/maillog/api/socket.py:51-63 | Succeeds exactly when the payload is shorter than 2^32 bytes. On success the output is a 4-byte prefix that reads as the payload length, followed by the payload. |
| Framing.Receive | src/maillog/api/socket.py:65-77 | The prefix read, the payload and the unread rest make up the stream. The payload is never longer than the prefix announces. |
| Framing.ReceiveEncoded | src/maillog/api/socket.py:51-77 | Receiving from a stream that starts with an encoded payload yields exactly that payload, and leaves every following byte unread. |
| Framing.ClosedPeerReadsEmptyPayload | src/maillog/api/socket.py:71-74 | A peer that closes without writing yields an empty payload, not an error. |
| Framing.ShortPrefixStillDecoded | src/maillog/api/socket.py:71-74 | A stream shorter than 4 bytes is read whole as the prefix and decoded as a length: [0, 3] announces 3 bytes. No payload follows it, so the payload read is empty rather than a short-read error. A full prefix of 3 yields the next three bytes. |
| Framing.FrameOf | src/maillog/api/messages.py:72-76 | A frame has a 4-byte length field that reads as the payload length, and the payload as its message. Its bytes on the wire are exactly the encoding of the payload. |
| ApiMessages.ToFrame | src/maillog/api/messages.py:17-25 | Succeeds exactly when the pickled message is shorter than 2^32 bytes. The frame is a 4-byte length of the pickled bytes, followed by those bytes. |
| ApiMessages.FromApiMessage | src/maillog/api/messages.py:71-76 | Succeeds exactly when to_frame does. Its length and message fields, put together, are the bytes to_frame produces. |
| ApiMessages.DecodeIgnoresLength | src/maillog/api/messages.py:78-80 | Decoding a frame does not depend on its length field. |
| ApiMessages.FrameRoundTrip | src/maillog/api/messages.py:71-80 | For a serialiser that reads back what it writes, decoding the frame built from a message gives that message. |
| ApiMessages.WireRoundTrip | src/maillog/api/messages.py:17-30 | Receiving from a stream that starts with `to_frame(m)` and unpickling the payload gives `m`, and leaves the rest of the stream unread. |
| LegacyApiMessage.FromApiMessage | src/maillog/api/message.py:25-30 | Succeeds exactly when the pickled command is shorter than 2^32 bytes. The length field is 4 bytes and reads as the length of the message field, which holds the pickled command. |
| LegacyApiMessage.CommandRoundTrip | src/maillog/api/message.py:25-34 | A framed command decodes to the same command, whatever the length field holds. |
| Handler.HandleSubmit | src/maillog/api/handler.py:32-46 | The buffer is restored from its file and the event appended. The success reply is sent exactly when the file was readable and the write persisted, and the file then holds the old list followed by the event. Otherwise the exception escapes and nothing is sent. An unreadable file or a failed open leaves the file as it was, and a failed dump leaves it unreadable. |
| Handler.HandleStatus | src/maillog/api/handler.py:48-60 | The buffer is restored from its file. The reply carries its whole contents, and the file is unchanged. An unreadable file raises and sends nothing. |
| Handler.HandleRequest | src/maillog/api/handler.py:14-60 | The socket is always closed, and a failure reply is never sent. A submit request appends its event to the file's list, and is acknowledged exactly when the file was readable and the write succeeded. A status request replies with the file's contents and changes nothing. Anything else changes nothing and sends nothing. An exception escapes exactly for an undecodable payload, a failed submit, or a status request on an unreadable file. |
| Handler.OneMessagePerConnection | src/maillog/api/handler.py:18-20 | Bytes after the first frame on a connection have no effect on the outcome. |
| Handler.SubmitThenStatus | src/maillog/api/handler.py:14-60 | On a readable buffer file, a submitted event is acknowledged. The next status request reports it after everything stored before it. |
| Handler.UnsavedSubmitNotReported | src/maillog/api/handler.py:32-60 | A submit whose write cannot open the file gets no reply, and the next status request reports only what was stored before it. |
| ApiServer.ReadRequest | src/maillog/api_server.py:76-81 | The loop collects the received chunks, in order, up to the first empty one. |
| ApiServer.Record | src/maillog/api_server.py:97-113 | The buffered record takes the defaults: "None" for a missing message, not immediate, level "warning", and process name and id "unknown". A present message is its `str()`, so a string stays as it is. A present `immediate` counts by its truthiness. A present level, process name and process id are taken as given. The timestamp is the handling instant. |
| ApiServer.HandleSend | src/maillog/api_server.py:94-123 | A level that is not a string, or that names one of the logging module's integer constants, makes the log call raise: the buffer is unchanged and nothing is sent. Otherwise an immediate request leaves the buffer alone and is acknowledged. Any other request appends its record once, keeping earlier entries. It is acknowledged exactly when the insert persisted, and raises otherwise. The only reply ever sent is `{"status": "ok"}`. |
| ApiServer.UnusableLevelRaises | src/maillog/api_server.py:104-105 | The level names "INFO", "WARNING" and "ERROR", and any level that is not a string, make the request raise before anything is buffered or sent. |
| ApiServer.HandleStatus | src/maillog/api_server.py:125-133 | The reply is the whole buffer, and the buffer is unchanged. |
| ApiServer.HandleClientRequest | src/maillog/api_server.py:73-92 | The socket is always closed. An empty request does nothing. A request that is not JSON, or not a JSON object, raises and changes nothing. A "send" request does what handle_send does, raising exactly when it raises. A "status" request replies with the buffer. Any other request leaves the buffer unchanged and sends nothing. |
| ApiServer.SendDefaults | src/maillog/api_server.py:98-123 | A request holding only `"action": "send"` buffers the message "None" at level "warning" from process "unknown"/"unknown", and is acknowledged. |
| StubServer.HandleClientRequest | src/maillog/api/server.py:44-60 | The socket is always closed. The buffer is never touched and no reply is sent. An exception escapes exactly when the payload is not a JSON object. |
| Schedule.TodayAt | src/maillog/scheduler.py:43 | Today's target has the same day number as now, and the schedule's time of day. |
| Schedule.Get | src/maillog/scheduler.py:39-48 | The target lies strictly after now, at the schedule's time of day. The wait is the difference, more than 0 and at most one day. The target is today while today's instant is still ahead, and tomorrow otherwise. |
| Schedule.GetIsEarliest | src/maillog/mail/scheduler.py:43-52 | No instant after now at the schedule's time of day comes before the target. |
| Schedule.FullDayExactlyOnTarget | src/maillog/mail/scheduler.py:47-51 | The wait is a full day exactly when now is today's target instant. |
| Schedule.DeltaSeconds | src/maillog/scheduler.py:34-36 | `timedelta.seconds` is the whole seconds of the wait with whole days taken out. It is below one day's worth of seconds, and differs from the whole seconds by a multiple of a day. |
| Schedule.ClockOfReconstructs | src/maillog/scheduler.py:33-37 | Hours, minutes and seconds put back together give the seconds they came from. Minutes and seconds are below 60, and hours are below 24 for less than a day. |
| Schedule.DeltaParts | src/maillog/mail/scheduler.py:34-41 | The printed parts add up to `delta.seconds`, with hours below 24 and minutes and seconds below 60. |
| Schedule.OneDayRendersZero | src/maillog/scheduler.py:30-37 | A wait of exactly one day is printed as "0h 0m 0s". |
| Schedule.TotalParts | src/maillog/mail/scheduler.py:34-41 | The corrected parts add up to the whole wait in seconds, days included, with minutes and seconds below 60. |
| Schedule.TotalPartsAgreeBelowOneDay | src/maillog/mail/scheduler.py:34-41 | Below one day, the corrected rendering equals the one as written. At exactly one day, it reads 24 hours. |
| Schedule.TotalPartsCoverWait | src/maillog/mail/scheduler.py:43-52 | For every wait that get returns, the corrected parts account for the whole wait, with at most 24 hours. |
| Format.FirstIndex | src/maillog/event/format.py:24-25 | The position of a key's first event: that event has the key, no earlier event does, and the position is in range exactly when the key occurs. |
| Format.GroupingCorrect | src/maillog/event/format.py:23-25 | The grouping loop yields one group per occurring key and no other. Each group holds exactly its key's events, in input order, and is never empty. Groups stand in the order their keys first appear. |
| Format.SelectMembers | src/maillog/event/format.py:24-25 | An event is filed under a key exactly when it occurs in the input and has that key. |
| Format.BeforeTransitive | src/maillog/event/format.py:27 | The stable-sort order on groups is transitive. |
| Format.BeforeTotal | src/maillog/event/format.py:27 | Any two distinct groups are ordered one way or the other. |
| Format.BeforeIrreflexive | src/maillog/event/format.py:27 | No group comes before itself. |
| Format.InsertKeepsOrder | src/maillog/event/format.py:27 | Inserting a new position into an ordered list of positions keeps it ordered. |
| Format.SortPositions | src/maillog/event/format.py:27 | The result is a permutation of the first n positions, ordered by first timestamp, with ties kept in dict order. |
| Format.OrderedGroups | src/maillog/event/format.py:23-27 | The groups have distinct keys, and their keys are exactly the occurring keys. Each group holds exactly its key's events, in input order. Each group's sort key is the timestamp of its key's first event. Groups are ordered by that timestamp, with ties in order of first appearance. |
| Format.EventsPartitioned | src/maillog/event/format.py:23-27 | Every input event lies in exactly one of the ordered groups. |
| Format.PrettyPrint | src/maillog/event/format.py:13-35 | The result is empty exactly when there are no events. |
| Format.PrettyPrintIgnoresMessages | src/maillog/event/format.py:29-35 | The result depends only on the events' process keys and timestamps. Messages and log levels never reach it. |
| Text.NatToString | src/maillog/event/format.py:31 | `str(n)` is a nonempty string of decimal digits with no leading zero, and it reads back as n. |
| Text.IntToString | src/maillog/event/format.py:31 | `str(i)` starts with a minus sign exactly when i is negative. |
| Text.LexLessTransitive | src/maillog/event/format.py:27 | Python's `<` on strings is transitive. |
| Text.LexLessTotal | src/maillog/event/format.py:27 | Of two distinct strings, one is less than the other. |
| Text.LexLessIrreflexive | src/maillog/event/format.py:27 | No string is less than itself. |
| Summary.InsertedMeanwhile | src/maillog/message.py:61-65 | Inserts by other threads append their events to the stored list. An unreadable file, or no inserts, leaves the file as it was. |
| Summary.SendSummaryMail | src/maillog/mail/scheduler.py:92-106 | An exception escapes exactly when the buffer file cannot be read, and then nothing is mailed or changed. Otherwise the mailed body is the formatted text of exactly the buffered events. If mailing raises, the file keeps every event. A changed file means the mail was delivered. After a delivered mail and a successful write, the file is empty. |
| Summary.QuietCycleMailsEverything | src/maillog/mail/scheduler.py:96-104 | With nobody inserting meanwhile, a delivered summary carries every buffered event and leaves the buffer empty. |
| Summary.InterleavedEventLost | src/maillog/mail/scheduler.py:96-103 | An event inserted between the read and the clear is neither mailed nor kept. |
| Summary.Drain | src/maillog/mail/scheduler.py:102-103 | The corrected clear removes only the first n events, keeps the rest, and persists them. |
| Summary.SendSummaryMailDraining | src/maillog/mail/scheduler.py:92-106 | The corrected cycle raises, reads and mails exactly as the original does. A failed mail keeps every event. |
| Summary.DrainingLosesNothing | src/maillog/mail/scheduler.py:96-103 | After a delivered summary, the events mailed followed by the events kept are exactly those buffered before plus those inserted meanwhile. |
| Summary.DrainingAgreesWhenQuiet | src/maillog/mail/scheduler.py:92-106 | With nobody inserting meanwhile, the corrected cycle equals the original one. |

## Left out

- Threads, the accept loops and the per-connection threads are left out. Each operation is one atomic step. Concurrent inserts appear only as the `others` list of the summary cycle.
- The buffer locks are left out. Each `_lock` is a dataclass default evaluated once (src/maillog/message.py:41, src/maillog/event/buffer.py:17, src/maillog/event/event.py:40), so one lock is shared by every instance of a class. It serialises insert, get and clear across all buffers of that class, which the atomic steps already give.
- Sockets are left out. A connection is the byte stream the peer wrote before closing. `recv` returns what is asked for, or what remains, with no partial reads in between.
- pickle and JSON are left out. Each is an abstract `Codec` or `parse` function, and `None` stands where the library raises.
- Whether `json.dump` can serialise the buffered objects is not modelled. A write outcome stands in for it.
- The UTF-8 decoding of received chunks is left out. Request bytes stay opaque up to `parse`.
- JSON values other than null, booleans, integers and strings are left out. The code would use nested values too: as `immediate` through their truthiness, as `log_level` in `getattr`, which raises `TypeError`, and as `msg` through their `str()`. None of these is modelled for lists or objects.
- The clock, `time.sleep`, the float `delta_seconds` and the `strftime` `time_string` are left out. `now` is a parameter, and instants are microseconds since the epoch.
- The mailer, SMTP, the host name and the mail subject are left out. Mailing is an outcome parameter.
- The command-line tools, configuration, logging and `print` are left out. This includes the per-event lines `pretty_print` prints and the "TODO: implement" of an immediate message.
- ApiServer.HandleStatus: assumes the JSON serialisation of the reply succeeds.
- ApiServer.Record: models the record `handle_send` evidently means to build. As written, the `Message(...)` call passes keywords that `Message` declares `init=False` and omits `immediate`, so it raises `TypeError`.
- Handler.HandleRequest: models the intended buffer interface. As written, the handler opens `EventBuffer()` as a context manager and calls `get_all_events`, neither of which exists. It also receives through the JSON socket, which never yields a message class. Its replies go through `APISocket.send`, whose `json.dumps` of a message object (src/maillog/api/socket.py:58) would raise `TypeError`; the model assumes that serialisation succeeds.
- Summary.SendSummaryMail: models the same intended buffer interface. `EventBuffer()` as a context manager and `get_all_events` do not exist.
- StubServer.HandleClientRequest: its `handle_send` and `handle_status` are the same code as in src/maillog/api_server.py, so they are modelled once there.
- The `MailScheduler` of src/maillog/scheduler.py only logs when it wakes. Its loop around `NextMailTarget.get` is not modelled.
- ApiServer.HandleSend: the logging module's other attributes (its classes, helper functions, submodules and string constants) are treated as absent names, which fall back to `logging.warning`. Only the level functions and the integer level constants are distinguished.
- Three behaviours of the code are modelled as written:
  - an undecodable buffer file raises; there is no fallback to an empty buffer;
  - a failed insert sends no reply at all;
  - a short length prefix from a peer that closes early is decoded as a length.

## Findings

| source | as written | input that shows it | evidently intended | confidence | as-written member | corrected member |
|---|---|---|---|---|---|---|
| src/maillog/event/buffer.py:22-33 | `__post_init__` assigns `_data`, but every other method, and the log call in `__post_init__` itself, reads `_event_buffer` | absent buffer file, then `insert(e)`: AttributeError; existing file: AttributeError during construction | the restored list goes into `_event_buffer` | not executed | EventBuffer.FreshInstanceFails | EventBuffer.FixedConstructionWorks |
| src/maillog/mail/scheduler.py:34-41 | `delta_string` uses `delta.seconds`, which drops whole days | `now` exactly at today's target: the wait is one day, printed as "0h 0m 0s" | the whole wait, printed as "24h 0m 0s" | not executed | Schedule.OneDayRendersZero | Schedule.TotalPartsAgreeBelowOneDay |
| src/maillog/mail/scheduler.py:96-103 | the events are read in one buffer session and cleared in another, and `clear` empties everything | buffer [e1]; another thread inserts e2 between the two sessions; the mail is delivered: e2 is neither mailed nor kept | remove only the events that were mailed | not executed | Summary.InterleavedEventLost | Summary.DrainingLosesNothing |
