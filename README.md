# Application-event parser of libsinsp, modelled in Dafny

This project models the core of `userspace/libsinsp/appevts.h` from sysdig.
That header holds the parser for *application events* (user events): records an
instrumented program writes, such as

    [">a", 7, ["tag1", "tag2"], [{"name": "value"}, ...]]

The parts of a record are these:

- The type string tells the two directions apart: `>` starts an enter event, anything else ends an exit event.
- The decimal id follows it.
- Then come a list of tags.
- Last is a list of name/value arguments.

The header holds two classes:

- `sinsp_appevtparser` does the following:
  - It buffers the fragments of a record that arrive in pieces (`process_event_data`).
  - It runs the `skip_*` / `parsestr` / `parsenumber` scanners over its storage (`parse`). The scanners write NULs over closing quotes and separators as they go.
  - It packs a parsed record into a partial event (`init_partial_appevt`).
  - When state tracking is on, it keeps the enter events in the inspector's list and pairs each exit event with the first pending enter event it matches (`compare`).
- `sinsp_partial_appevt` is the packed copy of an event: its id, three NUL-separated string storages, and a time stamp.

The model is in five modules:

| file | module | what it holds |
|---|---|---|
| `scan.dfy` | `AppEvtScan` | The scanners. Each is a method over an `array<char>` and a cursor. The method runs the source's loop and is proved equal to a pure specification function (`SpacesScan`, `SeparatorScan`, `CharScan`, `CurlyScan`, `BracketScan`, `StrScan`, `OptStrScan`, `NumberScan`). |
| `record.dfy` | `AppEvtRecord` | `parse` as a state machine. There is one stage per point between two scanner calls of the source; `StepAt` does one stage, `Drive` runs the stages to the end, and `ParseRecord` is the whole of `parse`. Beside them are the invariants that every return of `parse` keeps. |
| `pack.dfy` | `AppEvtPack` | The packed layout (`Packed`, `Offsets`, `CString`), the class `PartialAppEvt`, the copy loops of `init_partial_appevt`, and `compare`. |
| `parser.dfy` | `AppEvtParser` | The class `AppEvtParser`: the stage methods that run the scanners over `storage`, `Parse`, `SetStorageSize` and `ProcessEventData`. It also holds the part of `sinsp` the parser touches (class `Inspector`) and the enter/exit tracking. |
| `samples.dfy` | `AppEvtSamples` | Two concrete records run through `ParseRecord`: `[">a",7,[],[]]` and `[">a",7,["t"],[{"f":"v"}]]`. |

Some inputs are parameters of the model:

- the `uint64_t ts` time stamp;
- the `MAX_USER_EVT_BUFFER` cap, which this header uses without defining it (`AppEvtParser.maxUserEvtBuffer`);
- the inspector's tracking switch (`Inspector.trackAppEvtsState`);
- the free-event pool.

The data of `process_event_data` is a `seq<char>` of `datalen` characters.

`parsestr_not_enforce` (lines 804-822) returns OK with a NULL
string whenever `parsestr` fails, whatever byte follows. Its look-ahead for `]`
only picks between two branches that both do that.

Three behaviours of the code are kept as written:

- In `process_event_data`, the cap check compares the size buffered *before* this call with `MAX_USER_EVT_BUFFER`.
- Dropping a fragment past the cap keeps `m_fullfragment_storage_str`. That copy is then stale: nothing is buffered, yet the next record that arrives incomplete is not joined. The dropped text goes back over the storage and becomes the fragment in its place (`KeptAfterDrop`).
- Comparing over the shorter used length means that a tag list matches the same list with an empty tag appended (`CompareIgnoresEmptyLastTag`).

## Model

| member | source | states |
|---|---|---|
| AppEvtScan.SpacesScan | userspace/libsinsp/appevts.h:547-563 | `skip_spaces` always returns OK. It stops on a byte that is not a space, inside the buffer, with a NUL still at or after it. `SkipSpaces` is proved equal to it. |
| AppEvtScan.SpacesScanSkipsSpaces | userspace/libsinsp/appevts.h:547-563 | What `skip_spaces` consumes is spaces only. Its scan ends on a byte that is not a space, inside the buffer, and always returns OK. |
| AppEvtScan.SkipSpaces | userspace/libsinsp/appevts.h:547-563 | The loop over the array returns exactly the result and delta of `SpacesScan`. |
| AppEvtScan.SeparatorScan | userspace/libsinsp/appevts.h:565-600 | `skip_spaces_and_commas` returns only OK, FAILED or TRUNCATED, and on OK a NUL is still at or after the new cursor. It is the definition `SkipSpacesAndCommas` is proved equal to. |
| AppEvtScan.SkipSpacesAndCommas | userspace/libsinsp/appevts.h:565-600 | The loop returns exactly `SeparatorScan`: TRUNCATED when a NUL ends the run of spaces and commas, FAILED when the run holds fewer than `n` commas, otherwise OK with the run consumed. |
| AppEvtScan.CharScan | userspace/libsinsp/appevts.h:602-628 | `skip_spaces_and_char` returns only OK, FAILED or TRUNCATED, and on OK a NUL is still at or after the new cursor. It is the definition `SkipSpacesAndChar` is proved equal to. |
| AppEvtScan.SkipSpacesAndChar | userspace/libsinsp/appevts.h:602-628 | The loop returns exactly `CharScan`: TRUNCATED at a NUL, FAILED unless the run of spaces and `c` holds exactly one `c`. |
| AppEvtScan.CurlyScan | userspace/libsinsp/appevts.h:670-706 | `skip_spaces_and_commas_and_cr_brakets` returns only OK, FAILED or TRUNCATED, and on OK a NUL is still at or after the new cursor. It is the definition `SkipSpacesAndCommasAndCrBrakets` is proved equal to. |
| AppEvtScan.SkipSpacesAndCommasAndCrBrakets | userspace/libsinsp/appevts.h:670-706 | The loop returns exactly `CurlyScan`. It is OK only for one comma with one `{`, one comma with one `}`, or a single `}` right before `]`. |
| AppEvtScan.BracketStop | userspace/libsinsp/appevts.h:715-742 | Where the loop of `skip_spaces_and_commas_and_all_brakets` stops, never before the cursor and never past the buffer. `BracketStopIsFirstClose` and `BracketStopChars` state what the stop is. |
| AppEvtScan.BracketStopIsFirstClose | userspace/libsinsp/appevts.h:708-758 | The loop of `skip_spaces_and_commas_and_all_brakets` stops at the first `]` that follows a `[` of the same run, or at the first byte that is no space, comma or bracket. Before the stop there is no such `]`. |
| AppEvtScan.BracketStopChars | userspace/libsinsp/appevts.h:715-742 | Every byte before that stop is a space, comma or bracket. |
| AppEvtScan.BracketScan | userspace/libsinsp/appevts.h:708-758 | `skip_spaces_and_commas_and_all_brakets` returns only OK, FAILED or TRUNCATED, and on OK a NUL is still at or after the new cursor. It is the definition `SkipSpacesAndCommasAndAllBrakets` is proved equal to. |
| AppEvtScan.SkipSpacesAndCommasAndAllBrakets | userspace/libsinsp/appevts.h:708-758 | The loop returns exactly `BracketScan`. It is OK only when the bytes skipped hold one comma and one `[`, and either one `{` or a stop on `]`. |
| AppEvtScan.QuoteEnd | userspace/libsinsp/appevts.h:787-796 | The string loop stops at the first closing quote (a `"` not after a backslash), or at the first NUL. No closing quote comes before the stop. |
| AppEvtScan.QuoteEndClean | userspace/libsinsp/appevts.h:787-796 | No byte before that stop is a NUL. |
| AppEvtScan.StrScan | userspace/libsinsp/appevts.h:760-802 | A byte other than `"` gives FAILED, or TRUNCATED for a NUL, with a NULL string and one byte consumed. On OK the string starts after the opening quote, the closing quote is the first one, and it alone is overwritten with NUL. A NUL inside the string gives TRUNCATED with the buffer unchanged. |
| AppEvtScan.StrScanQuoted | userspace/libsinsp/appevts.h:760-802 | What an OK `parsestr` delimits lies between an opening quote and a closing quote. It holds neither a NUL nor a closing quote. |
| AppEvtScan.ParseStr | userspace/libsinsp/appevts.h:760-802 | The method on the array returns the result, pointer and delta of `StrScan`, and leaves the array as `StrScan` says. |
| AppEvtScan.OptStrScan | userspace/libsinsp/appevts.h:804-822 | The result is that of `parsestr` unless that is FAILED. A FAILED becomes OK with a NULL string and one byte consumed, so the result is never FAILED. |
| AppEvtScan.ParseStrNotEnforce | userspace/libsinsp/appevts.h:804-822 | The method on the array returns exactly `OptStrScan` and leaves the array as it says. |
| AppEvtScan.NumberScan | userspace/libsinsp/appevts.h:824-855 | On COMMA and OK the value is below 2^64, the byte after the digits is overwritten with NUL and consumed, and a NUL still follows. On FAILED and TRUNCATED the buffer is unchanged. |
| AppEvtScan.ParseNumber | userspace/libsinsp/appevts.h:824-855 | The loop accumulating into a `uint64_t` returns exactly `NumberScan`. That is the decimal value of the digits modulo 2^64, with COMMA, OK, TRUNCATED or FAILED decided by the byte after them. |
| AppEvtRecord.ParseRecord | userspace/libsinsp/appevts.h:287-529 | The definition of `parse` on a buffer holding a NUL: the stages run from the opening `[` with cleared fields. It carries no contract of its own. `ParseRecordBookkept`, `ParseRecordTyped`, `ParsedWithin` and `AppEvtParser.AppEvtParser.Parse` are stated against it. |
| AppEvtRecord.Drive | userspace/libsinsp/appevts.h:296-529 | The definition of running the stages of `parse` from one stage and cursor until one of them returns. It carries no contract of its own. It terminates because `StepAt` advances, and the `Parse*` methods of the parser are proved against it. |
| AppEvtRecord.StepAt | userspace/libsinsp/appevts.h:296-529 | One stage of `parse` that does not return keeps the buffer's length and a NUL ahead of the cursor. It never moves the cursor back, and it moves it forward or goes on to a later stage, so `parse` ends. |
| AppEvtRecord.OpenStep | userspace/libsinsp/appevts.h:310-321 | The stage of the leading spaces and the `[` advances as `StepAt` says. `AppEvtParser.AppEvtParser.OpenStage` is proved to do exactly this step. |
| AppEvtRecord.TypeStep | userspace/libsinsp/appevts.h:326-331 | The type-string stage advances as `StepAt` says. `m_type_str` is written whatever the result (`TypeStage` is proved against it). |
| AppEvtRecord.IdNumStep | userspace/libsinsp/appevts.h:343-348 | The id stage advances as `StepAt` says; the method `IdStage` is proved against it. |
| AppEvtRecord.QuotedStep | userspace/libsinsp/appevts.h:405-413 | A required quoted string (a tag, a name, a value) moves the cursor strictly forward onto the given next stage, with the buffer's length kept and a NUL ahead. |
| AppEvtRecord.OptionalStep | userspace/libsinsp/appevts.h:375-387 | An optional first tag or name moves the cursor strictly forward, onto the next item or onto the end of the list. |
| AppEvtRecord.TagSepStep | userspace/libsinsp/appevts.h:393-403 | The stage between tags advances as `StepAt` says; the method `TagSepStage` is proved against it. |
| AppEvtRecord.PairSepStep | userspace/libsinsp/appevts.h:462-473 | The stage between pairs advances as `StepAt` says; the method `PairSepStage` is proved against it. |
| AppEvtRecord.CloseOutcome | userspace/libsinsp/appevts.h:504-528 | The definition of the last stage: after the trailing spaces, `]` gives OK, a NUL gives TRUNCATED and any other byte FAILED. It carries no contract of its own; `CloseStage` is proved to do exactly this. |
| AppEvtRecord.ParseRecordBookkept | userspace/libsinsp/appevts.h:296-529 | On every return of `parse`, several things hold. The parallel vectors have equal lengths, and each total is the sum of its lengths. Each recorded string lies between a quote and a closing quote of the buffer, with that quote now NUL. The result is OK, FAILED or TRUNCATED, and on OK there are as many values as names. |
| AppEvtRecord.ParseRecordTyped | userspace/libsinsp/appevts.h:323-331 | On OK, `m_type_str` points into the buffer. That is the byte the enter/exit test of `process_event_data` reads. |
| AppEvtPack.Grown | userspace/libsinsp/appevts.h:912-916 | A storage reallocated to the encoded length only when it is smaller is at least as large as both, and is one of the two. |
| AppEvtPack.UnpackPacked | userspace/libsinsp/appevts.h:898-983 | The packed layout is a round trip. The C string at each stored offset is the string packed there, and the storage is as long as the strings plus one NUL each plus the closing NUL. |
| AppEvtPack.PackedCons | userspace/libsinsp/appevts.h:918-929 | A packed storage is its first string, a NUL, and the packing of the rest. |
| AppEvtPack.PackedFirst | userspace/libsinsp/appevts.h:918-929 | A packed storage starts with its first string, NUL-free, followed by a NUL. |
| AppEvtPack.RecordedStrings | userspace/libsinsp/appevts.h:918-926 | What `parse` records can be copied with `memcpy(p, *it, *sit + 1)`. Each chunk copied is the string followed by the NUL that replaced its closing quote, and no string holds a NUL. |
| AppEvtPack.BookkeptWithin | userspace/libsinsp/appevts.h:296-529 | Whenever the bookkeeping invariant of `parse` holds, whatever the result, every recorded string and the byte after it lies inside the buffer `parse` left, and each total is the sum of its lengths. On OK there are also no more values than names. |
| AppEvtPack.ParsedWithin | userspace/libsinsp/appevts.h:287-529 | An OK `parse` of a NUL-terminated buffer leaves a type string inside the buffer, every recorded string inside it, the totals equal to the sums, and no more values than names. That is what lines 237-255 rely on. |
| AppEvtPack.CopyStrings | userspace/libsinsp/appevts.h:918-926 | The copy loop stores each string with the byte after it, one after the other, and records each copy's offset. The cursor ends at the sum of the lengths plus one per string. |
| AppEvtPack.PackItems | userspace/libsinsp/appevts.h:918-929 | The copy loop and the closing NUL leave the chunks and a NUL in the storage, with their offsets. The used length is the encoded length. |
| AppEvtPack.Repack | userspace/libsinsp/appevts.h:907-929 | One block: the storage is reallocated to the encoded length when it is smaller, and the strings and the closing NUL are copied in. |
| AppEvtPack.PartialAppEvt.constructor | userspace/libsinsp/appevts.h:27-35 | Three new storages of `UESTORAGE_INITIAL_BUFSIZE` characters. |
| AppEvtPack.PartialAppEvt.Pack | userspace/libsinsp/appevts.h:890-983 | The event holds the record's id, tags, argument names and values, packed, with the counts. Each storage grows to its encoded length only when smaller. The values are sized with the count of names, and the time stamp is kept. |
| AppEvtPack.PartialAppEvt.Install | userspace/libsinsp/appevts.h:898-936 | The id, the counts and the three packed blocks are stored, and the time stamp is kept. |
| AppEvtPack.PartialAppEvt.Compare | userspace/libsinsp/appevts.h:55-70 | The definition of `compare`: equal ids, and tag storages equal over the shorter used length. It carries no contract of its own; `CompareAgrees`, `CompareSymmetric`, `ComparePacked`, `HeldCompare` and `CompareIgnoresEmptyLastTag` are stated against it. |
| AppEvtPack.CompareAgrees | userspace/libsinsp/appevts.h:55-70 | `compare` holds exactly when the ids are equal and the used tag storages agree up to the shorter length. |
| AppEvtPack.CompareSymmetric | userspace/libsinsp/appevts.h:55-70 | It does not matter which of the two events calls `compare`. |
| AppEvtPack.ComparePacked | userspace/libsinsp/appevts.h:55-70 | For packed storages of non-empty, NUL-free tags, `compare` holds exactly when the ids and the tag lists are equal. |
| AppEvtPack.HeldTags | userspace/libsinsp/appevts.h:918-929 | An event holding a record that `parse` bookkept has, as its used tag storage, exactly the packing of the record's tag strings, each of them NUL-free. |
| AppEvtPack.HeldCompare | userspace/libsinsp/appevts.h:55-70 | For two events holding records that `parse` bookkept, with non-empty tags, `compare` holds exactly when the two records have the same id and the same list of tags. |
| AppEvtPack.CompareIgnoresEmptyLastTag | userspace/libsinsp/appevts.h:55-70 | A tag list and the same list with an empty tag appended pack differently, yet `compare` matches them. |
| AppEvtParser.Inspector.Peek | userspace/libsinsp/appevts.h:239-243 | `pop` on an empty pool gives null. Otherwise it gives one of the pool's free events. |
| AppEvtParser.Inspector.Take | userspace/libsinsp/appevts.h:239 | The event `pop` chose leaves the pool, and what `compare` looks at in every pending event stays. |
| AppEvtParser.Inspector.Release | userspace/libsinsp/appevts.h:274-275 | The event at `i` is pushed back into the pool and erased from the list, and the rest of the list keeps its order. The inspector holds the same events, none of them changed, and they stay each in one place: no repeats in the list, none both pending and free, no storage shared. |
| AppEvtParser.EraseDistinct | userspace/libsinsp/appevts.h:275 | Erasing one entry of a list without repeats leaves a list without repeats, holding exactly the other events. |
| AppEvtParser.Start | userspace/libsinsp/appevts.h:245-247 | The enter event holds the packed record and the time stamp, and is pushed in front of the list. Every other event is unchanged, shares no storage with it, and keeps its id and tags. |
| AppEvtParser.Reinit | userspace/libsinsp/appevts.h:245-246 | The event holds the packed record and the time stamp. The other events keep their ids, tags and storages, and share none with it. |
| AppEvtParser.Adopt | userspace/libsinsp/appevts.h:247 | Pushing a free event that shares no storage with the others in front of the list keeps the inspector valid, and the exit event still shares no storage with any of its events. |
| AppEvtParser.Enter | userspace/libsinsp/appevts.h:245-247 | An event neither pending nor free heads the list, holding the record and the time stamp. The inspector stays valid, the exit event stays apart, and the pending events keep their ids and tags. |
| AppEvtParser.Enroll | userspace/libsinsp/appevts.h:239-247 | A free event leaves the pool and is entered as `Enter` says, with the exit event still out of the inspector's events and apart from them. |
| AppEvtParser.UnsharedJoin | userspace/libsinsp/appevts.h:27-35 | Adding an event that shares no storage with any of a set of separate events keeps them separate. |
| AppEvtParser.Reload | userspace/libsinsp/appevts.h:255 | The exit event holds the packed record and keeps its time stamp. Its storages are its own or new, it still shares none with the inspector's events, and the pending events keep their ids and tags. |
| AppEvtParser.Closed | userspace/libsinsp/appevts.h:257-281 | The definition of closing an exit event against the list. When an event of the list matched first, it is the enter event, it leaves the list, the rest keeping its order, and it goes back to the pool, while the exit event gets the time stamp. Otherwise the enter event is null and the list, the pool and the time stamp stay. It carries no contract of its own; `Link`, `Close`, `Exit` and `TrackExit` are stated against it. |
| AppEvtParser.Exit | userspace/libsinsp/appevts.h:253-281 | The exit event holds the packed record, then closes the first pending event it matches, as `Closed` says. The inspector stays valid, and the pending events keep their ids and tags. |
| AppEvtParser.Close | userspace/libsinsp/appevts.h:257-281 | The exit event closes the first pending event that `compare` accepts, as `Closed` says. With none, the list, the pool and the time stamp stay. The inspector stays valid, and the pending events keep their ids and tags. |
| AppEvtParser.Link | userspace/libsinsp/appevts.h:259-281 | When the search stopped at a pending event, the exit event gets the time stamp, that event becomes the enter event, and it moves from the list to the pool. When the search ran past the end, the enter event is null and nothing else changes. |
| AppEvtParser.FirstAgreeing | userspace/libsinsp/appevts.h:257-280 | The index of the first signature the exit event's matches, or the length when none does; none before it matches. |
| AppEvtParser.FirstAgreeingUnique | userspace/libsinsp/appevts.h:257-280 | That index is the only one with those properties. |
| AppEvtParser.Find | userspace/libsinsp/appevts.h:257-280 | The search loop calls `compare` on each pending event in turn, and stops at exactly `FirstAgreeing` of their signatures. |
| AppEvtParser.Resized | userspace/libsinsp/appevts.h:133 | `realloc` gives a buffer of the new size starting with the characters both sizes have. |
| AppEvtParser.Place | userspace/libsinsp/appevts.h:154-155 | The data is copied after the fragment, followed by a NUL. The fragment before it and the storage after the NUL are left as they were. |
| AppEvtParser.Overwrite | userspace/libsinsp/appevts.h:193-206 | The copy goes over the start of the storage, and the rest is left alone. |
| AppEvtParser.Kept | userspace/libsinsp/appevts.h:180-211 | The definition of what a TRUNCATED record leaves buffered. Past the cap the fragment is dropped and the saved copy kept. With no saved copy, `data` and a NUL go to the start of the storage and the fragment grows by `data`. Otherwise the saved copy goes back and is the fragment. It carries no contract of its own; `KeepFragment`, `KeptJoins` and `KeptAfterDrop` are stated against it. |
| AppEvtParser.Settled | userspace/libsinsp/appevts.h:167-215 | The definition of the buffering after `parse`: TRUNCATED goes as `Kept` says, and FAILED or OK leave nothing buffered and no saved copy. It carries no contract of its own; `Settle` and `ProcessEventData` are stated against it. |
| AppEvtParser.KeptJoins | userspace/libsinsp/appevts.h:146-211 | A record that stays buffered is joined in order. After a TRUNCATED under the cap, the storage starts with the fragment buffered so far followed by `data`, and the fragment size is their length. This holds with a saved copy and without one, but not in the state a drop past the cap leaves (nothing buffered, a saved copy kept); `KeptAfterDrop` covers that state. |
| AppEvtParser.KeptAfterDrop | userspace/libsinsp/appevts.h:182-208 | From the state a drop leaves, the next TRUNCATED record is replaced by the dropped text. The fragment size is the saved copy's length, the storage starts with that copy, and the copy stays saved. |
| AppEvtParser.AppEvtParser.constructor | userspace/libsinsp/appevts.h:108-116 | No storage, nothing buffered, result OK, no enter event, and a new embedded exit event. Each event is in one place with storages of its own. |
| AppEvtParser.AppEvtParser.OpenStage | userspace/libsinsp/appevts.h:310-321 | It does exactly the `Open` stage of `ParseRecord` on the storage. |
| AppEvtParser.AppEvtParser.TypeStage | userspace/libsinsp/appevts.h:323-331 | It does exactly the type-string stage, and the storage and `m_type_str` end up as the stage leaves them. |
| AppEvtParser.AppEvtParser.IdSepStage | userspace/libsinsp/appevts.h:333-341 | It does exactly the stage of the comma before the id. |
| AppEvtParser.AppEvtParser.IdStage | userspace/libsinsp/appevts.h:343-348 | It does exactly the id stage, and the storage and `m_id` end up as the stage leaves them. |
| AppEvtParser.AppEvtParser.IdEndStage | userspace/libsinsp/appevts.h:350-363 | It does exactly the stage after the id: spaces when `parsenumber` consumed the comma, otherwise a comma. |
| AppEvtParser.AppEvtParser.TagOpenStage | userspace/libsinsp/appevts.h:368-373 | It does exactly the stage of the `[` that opens the tags. |
| AppEvtParser.AppEvtParser.FirstTagStage | userspace/libsinsp/appevts.h:375-387 | It does exactly the optional-first-tag stage, and the tag vectors and the total grow as it says. |
| AppEvtParser.AppEvtParser.TagSepStage | userspace/libsinsp/appevts.h:393-403 | It does exactly the stage between two tags. |
| AppEvtParser.AppEvtParser.TagStage | userspace/libsinsp/appevts.h:405-413 | It does exactly the stage of a later tag. |
| AppEvtParser.AppEvtParser.ArgsOpenStage | userspace/libsinsp/appevts.h:419-425 | It does exactly the stage from the tag list to the argument list. |
| AppEvtParser.AppEvtParser.FirstNameStage | userspace/libsinsp/appevts.h:427-438 | It does exactly the optional-first-name stage. |
| AppEvtParser.AppEvtParser.ColonStage | userspace/libsinsp/appevts.h:440-445 | It does exactly the stage of the `:` between a name and its value. |
| AppEvtParser.AppEvtParser.ValueStage | userspace/libsinsp/appevts.h:447-455 | It does exactly the value stage. |
| AppEvtParser.AppEvtParser.PairSepStage | userspace/libsinsp/appevts.h:462-473 | It does exactly the stage between two pairs. |
| AppEvtParser.AppEvtParser.NameStage | userspace/libsinsp/appevts.h:475-483 | It does exactly the stage of a later name. |
| AppEvtParser.AppEvtParser.CloseStage | userspace/libsinsp/appevts.h:504-528 | It does exactly the last stage: trailing spaces and the closing `]`. |
| AppEvtParser.AppEvtParser.ParseHead | userspace/libsinsp/appevts.h:307-331 | It runs on from the start as `ParseRecord` does: it stops with the outcome, or it reaches the id. |
| AppEvtParser.AppEvtParser.ParseId | userspace/libsinsp/appevts.h:333-363 | It runs on from the id as `ParseRecord` does, up to the tag list. |
| AppEvtParser.AppEvtParser.ParseTags | userspace/libsinsp/appevts.h:365-414 | The tag loop runs on as `ParseRecord` does, up to the argument list. |
| AppEvtParser.AppEvtParser.ParseValue | userspace/libsinsp/appevts.h:485-500 | A `:` and a value, as `ParseRecord` does. |
| AppEvtParser.AppEvtParser.ParseArgs | userspace/libsinsp/appevts.h:416-502 | The argument loop runs on as `ParseRecord` does, up to the closing bracket. |
| AppEvtParser.AppEvtParser.ParseFrom | userspace/libsinsp/appevts.h:307-528 | The scanners run over the storage and give exactly `ParseRecord`'s result, buffer and fields. |
| AppEvtParser.AppEvtParser.Parse | userspace/libsinsp/appevts.h:287-529 | The vectors and totals are cleared, then the result, the storage and the fields are exactly those of `ParseRecord` on the old storage. |
| AppEvtParser.AppEvtParser.SetStorageSize | userspace/libsinsp/appevts.h:131-140 | The storage has the new size and keeps the characters both sizes have. |
| AppEvtParser.AppEvtParser.StoreFragment | userspace/libsinsp/appevts.h:146-160 | The storage is reallocated only when shorter than the fragment, `data` and a NUL; its new length is then exactly that, and otherwise it is the same array. The buffered fragment is followed by `data` and a NUL. When a fragment was buffered, the text up to the first NUL is saved as the full fragment. The inspector, its events and the exit event are unchanged. |
| AppEvtParser.AppEvtParser.KeepFragment | userspace/libsinsp/appevts.h:180-211 | A truncated record is handled as `Kept` says. Past the cap the fragment is dropped. With no saved copy, `data` and a NUL go to the start and the size grows. Otherwise the saved copy goes back and becomes the fragment. |
| AppEvtParser.AppEvtParser.EnterTracked | userspace/libsinsp/appevts.h:239-252 | The definition of tracking an enter event. With the pool empty nothing changes. Otherwise the enter event is a former free event, out of the pool now, in front of the list, holding the record and the time stamp. It carries no contract of its own; `TrackEnter` is stated against it. |
| AppEvtParser.AppEvtParser.TrackEnter | userspace/libsinsp/appevts.h:237-249 | An empty pool leaves the list, the pool and the enter event alone. Otherwise a free event leaves the pool, holds the packed record and the time stamp, goes in front of the list and becomes the enter event. Each event stays in one place with storages of its own, and every other pending event keeps its id and tags. |
| AppEvtParser.AppEvtParser.TakeEnter | userspace/libsinsp/appevts.h:245-248 | The free event `pop` chose becomes the enter event, leaves the pool, holds the packed record and the time stamp, and heads the list. The parser's own state is kept. |
| AppEvtParser.AppEvtParser.StartEnter | userspace/libsinsp/appevts.h:245-247 | The free event leaves the pool, holds the packed record and the time stamp, and heads the list. The storage, the buffering and the record are kept, and the other pending events keep their ids and tags. |
| AppEvtParser.AppEvtParser.TrackExit | userspace/libsinsp/appevts.h:250-282 | The embedded exit event holds the packed record and closes the first pending event it matches, as `Closed` says. Each event stays in one place, and the pending events keep their ids and tags. |
| AppEvtParser.AppEvtParser.Tracked | userspace/libsinsp/appevts.h:227-284 | The definition of tracking an OK record. With tracking off nothing changes. A type string starting with `>` is tracked as `EnterTracked` says; any other holds the record in the exit event and closes as `Closed` says. It carries no contract of its own; `Track`, `Settle` and `ProcessEventData` are stated against it. |
| AppEvtParser.AppEvtParser.Track | userspace/libsinsp/appevts.h:228-284 | With tracking off nothing changes. A type string starting with `>` is tracked as an enter event and any other as an exit event, as `Tracked` says. The storage, the buffering and the record are kept, each event stays in one place, and the pending events keep their ids and tags. |
| AppEvtParser.AppEvtParser.Stage | userspace/libsinsp/appevts.h:146-165 | The storage grows exactly as `StoreFragment` says and holds the buffered fragment, `data` and a NUL. `parse` runs over it with `ParseRecord`'s outcome, and an OK record lies inside the storage. The inspector, its events and the exit event are unchanged. |
| AppEvtParser.AppEvtParser.Drop | userspace/libsinsp/appevts.h:214-215 | Nothing is buffered and no copy is saved, as after FAILED (lines 172-173) and OK. The events, the tracking state and the parsed record stay. |
| AppEvtParser.AppEvtParser.Settle | userspace/libsinsp/appevts.h:167-284 | The buffering goes as `Settled` says: FAILED and OK drop it, TRUNCATED keeps the fragment as `Kept` says. Only OK touches the list, the pool or the enter event, and then as `Tracked` says. The result is that of `parse`, and each event stays in one place. |
| AppEvtParser.AppEvtParser.ProcessEventData | userspace/libsinsp/appevts.h:142-285 | The storage is reallocated only when too small, to exactly the size needed. The fragment is followed by `data`, and `parse` runs over it with `ParseRecord`'s outcome, which is returned. The buffering goes as `Settled` says, and an OK record is tracked as `Tracked` says. Each event stays in one place with storages of its own, and every pending event keeps its id and tags. |
| AppEvtSamples.HeadParse | userspace/libsinsp/appevts.h:307-373 | The head `[">a",7,[` is read as the type `>a` and the id 7, with NULs written over the type's closing quote and the comma after the id. Parsing reaches the first tag. |
| AppEvtSamples.BareParses | userspace/libsinsp/appevts.h:287-529 | `[">a",7,[],[]]` is accepted with the type `>a`, the id 7, no tags and no arguments. |
| AppEvtSamples.FullDrive | userspace/libsinsp/appevts.h:287-529 | `[">a",7,["t"],[{"f":"v"}]]` is accepted, with the fields `FullFields` lists and each closing quote turned into a NUL. |
| AppEvtSamples.FullParses | userspace/libsinsp/appevts.h:287-529 | That record gives the type at 2, the id 7, and one tag, one name and one value at 10, 17 and 21, each one byte long, with their totals. |
| AppEvtSamples.FullStrings | userspace/libsinsp/appevts.h:384-386 | The buffer `parse` leaves holds `>a`, `t`, `f` and `v` where those offsets point, each ended by a NUL. |

## Left out

- The rest of `sinsp`: only the tracking switch, the list of pending enter events and the free-event pool are modelled, as the class `Inspector`.
- AppEvtParser.Inspector.Peek: the pool is a set, so which free event `pop` returns is left open. The stack order and the pool's fixed capacity are not modelled.
- `Inspector.trackAppEvtsState` is a constant of the model. The parser only reads it.
- The time stamp `ts` and `MAX_USER_EVT_BUFFER` are parameters.
- Allocation failure is not modelled: the `sinsp_exception` thrown when `realloc` returns NULL, and a `malloc` that fails in the constructor.
- The destructors are not modelled. They free memory, which Dafny's garbage-collected arrays make moot.
- The constructor of `PartialAppEvt` sets the id, the used lengths, the counts and the time stamp to zero, where the constructor at lines 27-35 leaves them uninitialised. Within this code the difference cannot be seen: `init_partial_appevt` writes the id, the lengths and the counts before any `compare` reads them, and the time stamp is only ever written (lines 246 and 261).
- `ASSERT` is left out. So is the `DR_TEST_APPEVT_PARSER` build, which returns right after the buffering step; that is the state `Settle` reaches before tracking.
- `skip_spaces_and_commas_and_sq_brakets` (lines 630-668) is not modelled: it is compiled but nothing calls it. The `parsenumber(char*, char**, uint32_t*)` overload (lines 857-889) is not modelled either: it is inside a comment.
- `get_storage_size` (lines 126-129) is not modelled as a member. It only returns `m_storage_size`, which the model reads as `storage.Length`.
- AppEvtParser.AppEvtParser.SetStorageSize: `realloc` always gives a new array here. The case where it extends the block in place is not told apart, because nothing in the parser can observe it.
- AppEvtScan.SkipSpaces and the other `skip_*` scanners leave `*delta` unwritten on non-OK results. The model returns 0 there; the parser never reads it.
- AppEvtParser.AppEvtParser.KeepFragment: the `(uint32_t)` cast of the saved copy's length is not modelled. Sizes are unbounded here, so a saved copy of 2^32 characters or more, which the source would cut short, is kept whole.
- The `uint32_t` width of `datalen`, the lengths and the storage sizes is not modelled; `m_id` is kept modulo 2^64 as `parsenumber` computes it.
- Aliasing is excluded by invariants rather than modelled. `Inspector.Valid` says that the list holds no event twice, that no event is both pending and free, and that no two events share a storage. `AppEvtParser.Owned` adds that the embedded `m_exit_pae` is none of them and shares no storage with them. The source keeps these by allocating each event's storages itself (lines 27-35) and by only moving events between the list and the pool.
- AppEvtParser.Start: the packing is done after the push and the time stamp, not before. The order is not modelled because neither step affects the other.
- AppEvtPack.Text: the used length of a block is cut at the end of its storage. Packing never records more, so the cut only matters for blocks that `init_partial_appevt` never leaves.
- The pointers of `m_tags`, `m_argnames` and `m_argvals` into a partial event's storages are modelled as offsets.
- The strings `parse` records are modelled as start/length pairs into the parser's storage.
- The link from the enter event back to the free pool (the source's "tricky" optimisation, lines 263-272) is modelled as written. The released event stays the `m_enter_pae`, and nothing about later reuse of it is modelled.
