# Badi's field observer, session helper and installers, in Dafny

This project models the exact parts of Badi's Python code and proves what they promise.

* **Rich editors.** A Chromium rich editor is a list of blocks, some of which must not be read. The observer
  reads a bounded window around the caret and rebuilds what Chromium would send: inline objects in place, one
  line break fewer after a block that ends in one. `RichBlocks` gives every position of the flattened field its
  own piece of that text; `InlineObjects`, `RichReading` and `RichLayout` prove the loops against it;
  `Serialization` proves that the pieces join to the block-by-block text of the whole field; `Margin` counts
  what a window's pieces lack; `Snapshot` proves what the observer's reply is a part of.
* **Observer and daemon.** `Daemon` is one object with the fields of both source classes. Everything the
  desktop, the bus, the sockets and the clock answer is a free choice, also an invalidation in the middle of an
  operation. `Protocol` and `FramePump` hold the invariants over its fields, `Verdicts` what each request is
  answered with. Ghost fields record the replies and invalidations that reached each client, the bytes received
  and the frames answered, so that the theorems speak of whole runs.
* **Installer.** `Installation` makes changes after backing them up, `Backup` undoes them; `RestoreProofs` and
  `RepeatedChanges` prove what undoing gives back, at every point where a run can be cut short.
* **Scanners, decoders, arithmetic.** `Framing` holds one theorem about decoding in chunks, which the session
  link, the Wayland reader and the daemon's frames share. `Jsonc`, `Displayed`, `Flags`, `Launcher` and
  `Geometry` cover one algorithm each.

Five promises turned out not to hold on all inputs; each has a run or input on which it fails and the exact
condition under which it holds:

* The window's margin of one character a block does not make up for inline objects without text
  (`Snapshot.MarginFailsForEmptyObjects`). The clip is exact if and only if the dropped line breaks, less the growth
  of the window's inline objects, are no more than the margin, or nothing outside the window shows text
  (`Snapshot.ExactBeforeIff`, `Snapshot.ExactAfterIff`).
* A path changed twice in one run does not always come back (`RepeatedChanges.SecondWriteLosesOriginal`), and a saved
  copy that is a link is written through, to a file that nothing records or to another path's saved copy
  (`RepeatedChanges.SecondWriteOverwritesLinked`, `RepeatedChanges.SecondWriteOverwritesCopy`).
  A path comes back if and only if its one saved copy serves for every version it has to stand for
  (`RepeatedChanges.RestoreInvertsIff`, `RepeatedChanges.UndisturbedInvertsIff`).
* A verified caret line may be of an ended epoch (`Daemon.LateLine`): the text of every field is read once more after
  the last check for an invalidation, and a rich editor's is serialized after that. The line is current if and only if
  no invalidation comes in that time (`Daemon.Daemon.VerifyCaretLine`, `Daemon.Daemon.Run`).
* A whole buffered frame may wait for no callback, and a malformed request may end the epoch (`Daemon.UnencodableId`,
  `Daemon.OverflowingScale`). A waiting frame is scheduled if and only if its client's last frame could be decoded and
  its `id` repeated in a reply (`Daemon.Daemon.Run`), and a malformed request answered in time keeps the epoch if and
  only if its `op` can be looked up, its `id` repeated, and a preview's scale held by a float unless another client
  owns the observer (`Daemon.Daemon.Answer`).
* A request may get two replies: told that another client owns the observer, it is told of a missed deadline too. It
  gets exactly one if and only if not both hold (`Verdicts.OneReplyIff`).

## Model

| member | source | states |
|---|---|---|
| InlineObjects.InlineText | adapters/accessibility/field.py:975-986 | Splicing objects rightmost first equals reading the text left to right with every object in its place; it is refused exactly when some embedded object has no entry, or an entry no embedded object, at any depth; no U+FFFC is ever left |
| InlineObjects.ExpandedStep | adapters/accessibility/field.py:979-983 | After each splice everything right of it is expanded, everything left of it still raw |
| RichLayout.Flatten | adapters/accessibility/field.py:888-924 | Block starts are running totals; a layout exists only when one readable block holds the caret and the root names that block; nothing comes back exactly for a root without linked children |
| RichLayout.BlockShape | adapters/accessibility/field.py:940-949 | Every block spans its own length; a readable paragraph or heading ends in two line breaks, a readable section and every opaque block in one; it is opaque exactly without a known role, hypertext or resolved objects |
| RichReading.RichText | adapters/accessibility/field.py:1049-1067 | The text of a range is that slice of all raw block texts and ends joined; it is refused exactly when the range meets an opaque block's text or an embedded object that is none of the block's own |
| RichReading.ObstructedIff | adapters/accessibility/field.py:1049-1067 | A range is refused exactly for a position in it that belongs to an opaque block's text, or holds a U+FFFC that is none of its own block's objects |
| RichReading.DroppedBreaks | adapters/accessibility/field.py:1077-1085 | Exactly the first line break after each text whose last character is a line feed is dropped, also when the range begins at that break |
| RichReading.ChromiumText | adapters/accessibility/field.py:1070-1089 | Both sides of the caret are the serialized pieces of their range; refused exactly when an inline object in the range cannot be resolved |
| RichReading.CellOf | adapters/accessibility/field.py:1086-1089 | The dictionary of objects and the set of dropped breaks give each flattened position the piece its own block gives it |
| Serialization.BlockCellsJoin | adapters/accessibility/field.py:1071-1076 | A block's pieces join to its expanded text and its end: all of the end, or all but its first character after a text that ends in a line feed |
| Serialization.SerializedSplit | adapters/accessibility/field.py:1070-1089 | Serializing [a,b) and then [b,c) gives what serializing [a,c) gives, wherever the cuts are |
| Serialization.SidesJoin | adapters/accessibility/contract.py:268-270 | What Chromium sends before and after a caret in a readable block is one serialization of the whole field |
| Serialization.RangeEndsBefore | adapters/accessibility/field.py:1070-1089 | A range that ends at the caret and meets no opaque block is a suffix of all text before the caret, whatever the opaque blocks show; all of it from position 0 |
| Serialization.RangeBeginsAfter | adapters/accessibility/field.py:1070-1089 | The mirror image for the text after the caret |
| Serialization.MarginSuffices | adapters/accessibility/contract.py:262-265 | When every inline object shows text, a range serializes to at least its length less one character a block |
| Margin.SerializedLength | adapters/accessibility/field.py:1070-1089 | A range serializes to one character a position, less the dropped breaks in it, plus the growth of its inline objects |
| Margin.WholeBeforeIff | adapters/accessibility/contract.py:262-272 | A window's text before the caret is all there is if and only if every earlier position is a dropped break or an object without text and every earlier opaque block shows nothing |
| Margin.WholeAfterIff | adapters/accessibility/contract.py:262-272 | The mirror image for the text after the caret |
| Snapshot.WindowHoldsCaret | adapters/accessibility/field.py:415-426 | The window holds the caret and touches no opaque block, in either scope |
| Snapshot.WindowIs | adapters/accessibility/contract.py:262-267 | The window is every position within the clips and one a block more, or, exactly when an opaque block meets these, those of the caret's block |
| Snapshot.StableText | adapters/accessibility/contract.py:386-399 | Text comes exactly when the epoch held, both readings agree on caret, length, selections and every character of the range, and none is a control character; each other way to end has its own denial |
| Snapshot.TextWindow | adapters/accessibility/contract.py:255-278 | The reply, step by step as the observer makes it, is the clipped serialization of the window's two sides, with inline objects and the character before an opening break read at a third moment; it comes only for a window that two readings agree on, and says whether the window reaches the field's end |
| Snapshot.SnapshotIsExact | adapters/accessibility/contract.py:255-278 | In field scope the reply is exactly the last 512 and first 128 characters of the whole serialization, at the moment of the last reads, split at the caret, when every inline object shows text |
| Snapshot.BlockScopeIsExact | adapters/accessibility/contract.py:262-278 | In block scope the reply is exactly the last 512 and first 128 characters of what the caret's own block serializes to, when every inline object shows text |
| Snapshot.SnapshotIsPartOfWhole | adapters/accessibility/contract.py:272-278 | In either scope the reply's text before ends, and its text after begins, the whole serialization, for every text of the opaque blocks |
| Snapshot.ExactBeforeIff | adapters/accessibility/contract.py:262-272 | The text before is the exact clip if and only if the dropped breaks of its part of the window, less the growth of the inline objects there, fit into what that part has over the clip (the margin, in field scope), or nothing before the window shows text |
| Snapshot.ExactAfterIff | adapters/accessibility/contract.py:262-272 | The same for the text after |
| Snapshot.MarginFailsForEmptyObjects | adapters/accessibility/contract.py:262-265 | For one paragraph with two links without text the observer replies, in field scope, with a text before that is not the exact clip |
| Snapshot.OpaqueTextIsUnread | adapters/accessibility/field.py:1037-1067 | Fields that differ in the texts of opaque blocks alone, at each of the three readings, get the same reply, denials included |
| Snapshot.WholeRange | adapters/accessibility/field.py:1070-1089 | Over the full range of a readable field the pieces are the block-by-block serialization |
| Daemon.Daemon.Unsubscribe | adapters/accessibility/daemon.py:264-272 | Only a live subscription is ever ended, so none twice |
| Daemon.Daemon.DisarmFieldEvents | adapters/accessibility/daemon.py:264-272 | Every subscription on the bus is ended, each once, and the fields say so |
| Daemon.Daemon.RegisterProducer | adapters/accessibility/daemon.py:274-286 | All field events are registered for the one bus, or after any refusal none is |
| Daemon.Daemon.WithdrawProducer | adapters/accessibility/daemon.py:288-292 | No registration is left |
| Daemon.Daemon.ArmFieldEvents | adapters/accessibility/daemon.py:182-208 | Armed means subscribed to the field and to every scroll pane above it and to nothing else; it ends as ArmVerdict says, which a bus that grants everything missing allows; on every failure the subscriptions and registrations on the bus still are the ones the fields name |
| Daemon.Daemon.Withdraw | adapters/accessibility/contract.py:186-193 | No preview, no held preview, no subscription and no verified caret line are left |
| Daemon.Daemon.Invalidate | adapters/accessibility/contract.py:177-184 | The epoch rises, everything is withdrawn, the owner is told; an owner that cannot be told is disconnected, which raises the epoch once more and ends there |
| Daemon.Daemon.Broadcast | adapters/accessibility/daemon.py:427-429 | The owner gets the invalidation or is no longer the owner |
| Daemon.Daemon.Send | adapters/accessibility/daemon.py:411-425 | Sockets decide which documents are taken; a taken reply is on record for its client and for no other; a client that cannot take a document at once is disconnected; one that cannot be encoded changes nothing and raises, exactly when the client is connected |
| Daemon.Daemon.CloseClient | adapters/accessibility/daemon.py:398-404 | Exactly this client goes; losing the owner leaves no owner and a new epoch, losing another client leaves the observer alone |
| Daemon.Daemon.Describe | adapters/accessibility/contract.py:401-423 | The binding names the tracked field in the current epoch; the epoch ends exactly for an interruption or another field than the tracked one; a failing read ends as the backend's denial or an exception |
| Daemon.Daemon.BoundFocus | adapters/accessibility/contract.py:371-384 | Success comes exactly when the request's binding and target are those of the field as it is now, in an unchanged epoch; every other case has its own denial, and a stale epoch is refused without a read |
| Daemon.Daemon.InspectField | adapters/accessibility/contract.py:223-227 | A binding that may be delivered: it names the only field its epoch has named; a malformed app id changes nothing; every failure has its own denial |
| Daemon.Daemon.VerifyCaretLine | adapters/accessibility/contract.py:234-247 | The line's three facts follow from the text read; for every kind of field the line is of the current epoch if and only if no invalidation came after the check for one: while the text was read again or, for a rich editor, while it was serialized |
| Daemon.Daemon.SnapshotField | adapters/accessibility/contract.py:229-253 | A reply repeats the request's binding and target; while its epoch lasts the field is armed; the caret line is set from the text read, for this kind of field, and its epoch lasts if and only if no invalidation came too late to be noticed; it ends exactly as SnapshotVerdict says |
| Protocol.EdgesAgree | adapters/accessibility/contract.py:238-246 | Words follow exactly when some character before the next line feed is no white space; nothing follows exactly when a plain field's last text is all white space; the two exclude each other |
| Protocol.TargetMeans | adapters/accessibility/contract.py:425-435 | A target is of its binding's app, field and epoch; a browser's has its page's origin, and there is none exactly for a browser's page without one |
| Protocol.TargetsTell | adapters/accessibility/contract.py:425-435 | Equal targets are of one app and field, in one epoch and, in a browser, of pages of one origin |
| Daemon.LateLine | adapters/accessibility/contract.py:386-399 | Runs from the start, over one client's two frames, that leave a caret line of an ended epoch in a state that the invariant allows: one invalidation while a plain field's text is read again, its end taken for known, or while a rich editor's is serialized |
| Daemon.Daemon.ShowPreview | adapters/accessibility/contract.py:304-324 | A preview is drawn exactly when it is well formed, its field is still bound, its caret and length are the read ones and no invalidation comes meanwhile; it is held from then on, at the caret's place, exactly when it was drawn; a malformed preview changes nothing, and is refused exactly for its shape unless its rectangle's scale overflows, which raises |
| Daemon.Daemon.DrawBound | adapters/accessibility/contract.py:317-323 | An epoch that ended during the drawing leaves nothing visible and nothing held |
| Daemon.Daemon.RepositionPreview | adapters/accessibility/contract.py:326-347 | With 50 ms left at the time of the scroll, the preview is drawn again for exactly what is left, where the caret is then found, or the epoch ends with everything withdrawn; the first exactly when the field is still bound and drawing succeeds; with less nothing changes; only a backend's failure leaves it to the caller |
| Daemon.Daemon.PreviewMoved | adapters/accessibility/contract.py:349-369 | The preview stays exactly when none is held, its lifetime is over, or the bound field's caret is where it was drawn; otherwise the epoch ends |
| Daemon.Daemon.Replied | adapters/accessibility/contract.py:201-209 | A malformed request changes nothing, every other denial withdraws everything |
| Daemon.Daemon.Request | adapters/accessibility/contract.py:195-209 | The outcome is the verdict; a malformed denial comes exactly for a malformed request whose check does not raise, and a malformed request changes nothing; every other denial withdraws everything |
| Daemon.Daemon.HidePreview | adapters/accessibility/contract.py:217-221 | A hidden preview is no longer held, so no scroll draws it again |
| Daemon.Daemon.Respond | adapters/accessibility/daemon.py:513-521 | The first client to acquire becomes the owner; another one is told so, once, and changes no field state, or raises when its `id` cannot be repeated; an `op` that cannot be looked up and, for the owner, a scale that overflows raise; nothing else is sent, and the outcome is the observer's verdict; a binding accepted from a client was never delivered to another |
| Daemon.Daemon.Deliver | adapters/accessibility/daemon.py:496-499 | A reply that reached its client is on record, a focus in the log too, which still has one field and target for each epoch; a client that could not take it is gone; one that cannot be encoded changes nothing and raises |
| Daemon.Daemon.Serve | adapters/accessibility/daemon.py:495-509 | A request of a client that stays connected is answered with exactly the replies that Says names, and no other client with any; a failure, a missed deadline, an `op` that cannot be looked up, an `id` that cannot be repeated or the owner's overflowing scale ends the epoch, withdraws everything and delivers no focus; the dispatch raises if and only if the `id` cannot be repeated to a client still connected; a malformed request in time keeps the epoch if and only if it is none of these |
| Verdicts.AnswerFits | adapters/accessibility/daemon.py:485-511 | Whatever the state and the world, a frame that can be answered gets one reply of its kind (status, hiding, a focus that repeats the request, or a denial), or the busy denial and the deadline's; no JSON and a frame that cannot be answered get none |
| Verdicts.OneReplyIff | adapters/accessibility/daemon.py:485-521 | A request that can be answered gets exactly one reply, or exactly two if and only if it is told that another client owns and its deadline passes too |
| Daemon.Daemon.WhoIsAnswered | adapters/accessibility/daemon.py:513-521 | In time, a status request is answered to every client, hiding to the owner or when there is none, and every operation of the owner's, asked for by another client, with the busy denial |
| Verdicts.VerdictSuits | adapters/accessibility/contract.py:195-209 | The observer's verdict is a malformed denial exactly for a malformed request, `invalid_preview` exactly for a misshapen preview, and a focus only for an acquisition, repeating its binding and target in the epoch it was asked in; it raises for no malformed request that is checked in full |
| Daemon.Daemon.Answer | adapters/accessibility/daemon.py:485-511 | It raises if and only if the frame is nested too deeply or its `id` cannot be repeated, to a client still connected; otherwise that client gets what the frame has to be answered with; a malformed frame answered in time keeps everything about the field if and only if it is no request, or one with a usable `op` and `id` and no overflowing scale from a client that may draw |
| Daemon.Daemon.TakeFrame | adapters/accessibility/daemon.py:465-468 | The first line leaves the buffer and is the next answered frame of that client |
| Daemon.Daemon.ProcessNext | adapters/accessibility/daemon.py:453-473 | Exactly one frame is answered, with its own replies, when the expected client has a whole one, none otherwise; afterwards a client with a whole frame has exactly one callback if and only if its last frame could be answered; a stale callback changes nothing |
| Daemon.Daemon.DispatchIdle | adapters/accessibility/daemon.py:453-473 | A callback for a descriptor since reused changes nothing but the queue; its own client gets one answer, and the callback raises exactly when that frame cannot be answered |
| Daemon.Daemon.Read | adapters/accessibility/daemon.py:431-451 | The bytes join the stream, too much or too long a line disconnects, one frame is answered with its own replies exactly when a whole one is there and none was scheduled, and it raises exactly when that frame cannot be answered |
| Daemon.Daemon.InspectionIsDelivered | adapters/accessibility/daemon.py:485-511 | An undisturbed inspection, by a client that takes what it is sent, is answered with the field that was found in the epoch it was asked in, and exactly this is delivered |
| Daemon.Daemon.Accept | adapters/accessibility/daemon.py:380-396 | A new client with an empty buffer and a fresh identity, or none when there are enough or it is another user's |
| Daemon.Daemon.FieldEvent | adapters/accessibility/daemon.py:210-223 | Changed text attributes change nothing; a scroll moves the held preview or ends the suggestion as RepositionPreview does; any other event ends the epoch |
| Daemon.Daemon.Scrolled | adapters/accessibility/daemon.py:231-243 | The held preview is moved, for what is left of its lifetime, left alone for less than 50 ms, or the epoch ends, also after a failure; no client stream changes |
| Daemon.Daemon.CheckPreview | adapters/accessibility/daemon.py:250-262 | The timer goes on exactly while a preview is held whose lifetime is over or whose caret is found where it was drawn; otherwise the epoch ends |
| Daemon.Daemon.FocusEvent | adapters/accessibility/daemon.py:527-530 | A focus change ends the epoch of a tracked field |
| Daemon.Daemon.WindowChanged | adapters/accessibility/daemon.py:574-591 | Another window leaves no tracked field, no subscription and no registration, and ends the epoch exactly of a tracked field |
| Daemon.Daemon.Shutdown | adapters/accessibility/daemon.py:609-615 | No client, owner or subscription is left and, while the bus is open, no registration |
| Daemon.Daemon.Dispatch | adapters/accessibility/daemon.py:599-607 | One event does what it has to, answers one frame at most and keeps the invariant and the accounts of replies |
| Daemon.Daemon.Run | adapters/accessibility/daemon.py:599-607 | Over any run of events: the epoch never decreases, replies of one epoch name one field and target, each answered frame of a connected client got its own replies in order and every focus reply is in the log, each client's bytes are its answered frames in order and its buffer, a waiting frame is scheduled if and only if the last one could be answered, the owner is connected, a held preview and an armed field are the tracked field's in this epoch, and the caret line is of this epoch if and only if no invalidation came while its text was read again or serialized |
| Daemon.UnencodableId | adapters/accessibility/daemon.py:485-521 | A run in which a malformed request with an `id` that no reply can repeat, followed by any frame in the same chunk, ends the epoch and leaves that frame waiting for nothing while its client stays |
| Daemon.OverflowingScale | adapters/accessibility/contract.py:476-483 | A run in which a malformed preview, from a client that may draw, with a caret rectangle whose integer scale no float holds, ends the epoch |
| Protocol.PreviewShape | adapters/accessibility/contract.py:464-483 | A preview is well formed exactly with text that may be drawn, a lifetime of 1 to 15000 ms, a caret from 0 to the length, a length below 2^31, a rectangle that fits if any, and a strong part that is neither nothing nor all of the text |
| Protocol.NudgedIsWellFormed | adapters/accessibility/contract.py:335-340 | What is left of a held preview's lifetime makes a well-formed preview with no longer a lifetime |
| Protocol.FieldTracked | adapters/accessibility/contract.py:409-414 | Tracking a field for the first time in an epoch makes a binding that agrees with every reply delivered before |
| FramePump.PumpDispatches | adapters/accessibility/daemon.py:460-463 | Taking a callback off the queue unsettles at most its own client |
| FramePump.FrameTaken | adapters/accessibility/daemon.py:465-468 | Received bytes stay the answered frames and the buffer, in order |
| FramePump.AnsweredAreLines | adapters/accessibility/daemon.py:453-473 | Answered frames and a buffer that make up a stream are its first lines and what follows them, however the stream was cut |
| Backup.Home.Restore | scripts/badi_install.py:709-765 | Undoing a backup treats each path alone, newest change first, and reports exactly the paths that are neither original nor as left |
| RestoreProofs.LaterEditsSurvive | scripts/badi_install.py:691-765 | A path is modified only when it still is what the installation left, and then gets its original; it is reported exactly when it is neither |
| RestoreProofs.RestoreIsIdempotent | scripts/badi_install.py:709-765 | A second restore changes nothing and reports the same paths |
| RestoreProofs.OnlySelectedPaths | scripts/badi_install.py:712-733 | Paths that the selection leaves out stay as they are, unreported |
| RestoreProofs.SelectionDecides | scripts/badi_install.py:722-728 | A path is undone as without a selection exactly when some named path, without the slashes it ends in, is that path or its beginning up to a slash; with a selection, every other path is left alone |
| RestoreProofs.ContentDecides | scripts/badi_install.py:691-706 | Files of equal content are undone alike |
| RestoreProofs.PassedRecoverable | scripts/badi_install.py:635-647 | In every state a run passes through, each recorded path is original or as left, with its original saved, and every other path is untouched |
| RestoreProofs.RestoreInvertsAtEveryCrash | scripts/badi_install.py:564-595 | From every state in which a run that changes each path once, and none below another, can be cut short, also between the record and the change, restoring returns every path to its original and reports none |
| RestoreProofs.NewestFirstReturnsToStart | scripts/badi_install.py:709-765 | Restoring several backups newest first returns every path to what it was before the first |
| RepeatedChanges.RestoreInvertsIff | scripts/badi_install.py:635-647 | For runs that change paths repeatedly: a path comes back unreported if and only if it now holds what its last change left or would put back, and its one saved copy equals its first version, if it had one, and every version that a creation left and a later change saved |
| RepeatedChanges.UndisturbedInvertsIff | scripts/badi_install.py:641-645 | The same from the changes alone, for a path that no other path's copy reaches: the saved copy is the last version saved, but a link, once saved, stays |
| RepeatedChanges.SecondWriteLosesOriginal | scripts/badi_install.py:641-645 | Writing one existing file twice in a run loses its original |
| RepeatedChanges.SecondWriteOverwritesLinked | scripts/badi_install.py:641-645 | Writing twice where a link was brings the link back, but leaves the file it led to overwritten, unrecorded and unreported |
| RepeatedChanges.SecondWriteOverwritesCopy | scripts/badi_install.py:641-645 | Writing twice where a relative link was can overwrite another path's saved copy, and with it that path's original |
| RepeatedChanges.LinkOverCopyRefused | scripts/badi_install.py:641-645 | A link that replaced a saved file cannot be saved itself, so no later change of that path is possible in the run |
| Installation.Installation.Record | scripts/badi_install.py:635-647 | The original is saved, over a copied file or through a copied link, then the map is written, and the target is untouched; when it cannot be saved nothing is recorded |
| Installation.Installation.Write | scripts/badi_install.py:564-575 | The target holds the data afterwards; a change is recorded exactly when something changed; it is refused exactly for a link that may not be replaced, for an unexpected kind of file and for an original that cannot be saved, which change nothing |
| Installation.Installation.MakeLink | scripts/badi_install.py:577-586 | The same for a link, which is left alone when it already points there |
| Installation.Installation.Delete | scripts/badi_install.py:588-595 | The target goes, after its original is saved; a missing or unexpected target, and one that cannot be saved, changes nothing |
| Installation.ObjectAtCrashPoints | scripts/badi_install.py:538-595 | The states the object went through are exactly the crash points the theorems quantify over |
| Framing.DecodeAppend | adapters/session/link.py:218-240 | Decoding more bytes continues from where decoding the first ones stopped |
| Framing.ChunksDoNotMatter | adapters/session/link.py:218-240 | Any chunking of a stream decodes like the whole stream, for every reader whose verdicts are final |
| SessionLink.StepOfEncoded | adapters/session/link.py:52-56 | The first frame of an encoded body and anything after it is that body |
| SessionLink.SentIffTaken | adapters/session/link.py:52-56 | What can be sent is exactly what the other end takes for a frame |
| SessionLink.EncodedFramesSurviveChunking | adapters/session/link.py:218-240 | However the encoded frames are cut, their bodies arrive in order and the partial tail is kept |
| SessionLink.Link.Read | adapters/session/link.py:218-240 | A message takes exactly its frame off the stream, and so does a body that is no JSON or no message; every other failure loses no byte: a broken length is reported at once, a timeout and a closed connection only on a partial frame |
| Wayland.PartialMessageIsSmall | scripts/install-desktop.py:304-315 | A partial message is under 64 KiB, so the buffer guard never fails |
| Wayland.SentIsReceived | scripts/install-desktop.py:305-312 | A message sent with its size in the upper half of the second word is the first message of any stream it begins |
| Wayland.GlobalIsNamed | scripts/install-desktop.py:313-315 | A global's name is read back from its length, characters and final zero |
| Wayland.ExchangeAnswers | scripts/install-desktop.py:298-320 | Any messages followed by the callback's event answer with the names the registry announced among them; followed by the display's error, with nothing |
| Wayland.Globals | scripts/install-desktop.py:298-326 | For every chunking the answer is that of the whole stream received before the peer closed |
| Wayland.DecodeMeans | scripts/install-desktop.py:298-326 | That answer is the set of global names before the first message that ends the exchange, if it is the callback's, and nothing when it is an error or the stream breaks |
| Jsonc.Scan | scripts/badi-desktop.py:602-618 | The scanner copies strings and replaces each skipped stretch by one space, as the division of the source into strings, stretches and characters says; it fails exactly for an unterminated comment |
| Jsonc.CommentEnds | scripts/badi-desktop.py:620-629 | A line comment ends before the first line feed, a block comment with the first close after its opening, and without one it is an error |
| Jsonc.ItemsAreTheSource | scripts/badi-desktop.py:602-618 | That division loses and moves nothing |
| Jsonc.CommentsAreGone | scripts/badi-desktop.py:620-629 | Scanning the output finds the same strings and characters and no comment, left or newly formed |
| Jsonc.CommentPassIsIdempotent | scripts/badi-desktop.py:620-629 | A second comment pass changes nothing |
| Jsonc.StringsSurvive | scripts/badi-desktop.py:606-613 | Every string literal outside comments is copied verbatim and in order |
| Jsonc.CommasPointwise | scripts/badi-desktop.py:631-632 | The comma pass keeps the length and turns exactly the commas outside strings before white space and a closing bracket into spaces |
| Jsonc.CommentsDoNotProtect | scripts/badi-desktop.py:634 | After both passes a comma is gone if and only if only white space and comments stand between it and a closing bracket |
| Jsonc.Strip | scripts/badi-desktop.py:600-634 | Both passes together, failing only for an unterminated comment and never longer than the source |
| Displayed.DisplayedText | adapters/accessibility/field.py:989-1004 | Computes, character by character, the text that the next four rows characterise |
| Displayed.DisplayedTwice | adapters/accessibility/field.py:989-1004 | Every result is in the normal form: no control character or embedded object, a format character only as a joiner between Arabic letters, single inner spaces; displaying again changes nothing |
| Displayed.UnchangedIffNormal | adapters/accessibility/field.py:989-1004 | A text is left alone if and only if it is in the normal form |
| Displayed.DisplayedKeepsInk | adapters/accessibility/field.py:989-1004 | Every visible character stays, in order, and none is added |
| Displayed.SeparatorsPart | adapters/accessibility/field.py:999-1004 | White space, a control character or an embedded object parts a text: each side is displayed on its own, with one space between |
| Displayed.JoinersStay | adapters/accessibility/field.py:997-1004 | A joiner with an Arabic letter on each side is displayed, still between them |
| Displayed.JoinersJoin | adapters/accessibility/field.py:997-1004 | A displayed joiner has an Arabic letter on each side |
| Displayed.FormatVanishes | adapters/accessibility/field.py:1002-1004 | Any other format character goes without a trace |
| Flags.CutComment | scripts/badi_install.py:784-804 | The line up to the first hash that is outside quotations and where a word may begin: nothing but such a hash ends it, and none is left in it |
| Flags.TokensAppend | scripts/badi_install.py:807-819 | For each wrapper's parser a line feed keeps the arguments of two texts apart, whatever line break the first ends with |
| Flags.FlagsExtend | scripts/badi_install.py:822-837 | An edit keeps the old text as a prefix, adds exactly the flag to the parsed arguments, and a second edit finds nothing to do |
| Flags.FlagsDecide | scripts/badi_install.py:822-837 | An edit is refused exactly when an argument disables renderer accessibility or chooses another mode than the complete one, or the text cannot be parsed; nothing is done exactly when the switch is already given |
| Launcher.ObservedLauncher | scripts/badi_install.py:840-871 | The loop over the lines, with the first line to inspect deciding the error |
| Launcher.LauncherExtends | scripts/badi_install.py:840-871 | Only Exec lines without the switch change, each by one word right after its program; a second edit finds nothing to do |
| Launcher.FlagFollowsProgram | scripts/badi_install.py:855-868 | The flag goes right after the program, which is the first word or, after `env`, the first that assigns nothing; a missing or quoted program is refused |
| Launcher.OpposingLine | scripts/badi_install.py:849-854 | A line is refused for a renderer choice exactly when a word disables it or chooses another mode than the complete one |
| Launcher.NothingToDoIff | scripts/badi_install.py:840-871 | Nothing is done if and only if every Exec line has the complete mode and no other choice |
| Geometry.ShiftInvariant | adapters/accessibility/geometry.py:39-92 | Moving the frame by (dx, dy) and every other extent by the scale times that leaves the reply unchanged |
| Geometry.CaretInBound | adapters/accessibility/geometry.py:76-92 | Every reply has its caret inside the window and a following glyph strictly right of it, and the caret lies in the reported bound up to the edge tolerance in logical pixels and the roundings |
| Geometry.RepliesIff | adapters/accessibility/geometry.py:39-92 | There is a reply exactly when the window's one monitor is upright and of a usual scale, the extents are measured, nested and of that scale, the field or a caret mark's container encloses the glyph, and the caret's line lies in the window |
| Geometry.FollowingIff | adapters/accessibility/geometry.py:22-36 | The next glyph is named exactly when it is on the caret's line, no more than a pixel before the caret, in the bound and right of the caret |

## Left out

- AT-SPI, D-Bus, GTK, sockets and clocks: their answers are free choices; time only never goes back.
- JSON decoding, `shlex`, the Unicode tables and hashing: parameters, or the hashed values themselves.
- Policy checks of one field (`eligible`, `canonical_origin`, `checked_app_id` apart from its shape), drawing details and the reply fields that depend on them: no state spans them.
- Plain fields and a selection's own text (adapters/accessibility/contract.py:280-302): slices of one text without blocks; their effect on arming and epochs is modelled.
- Vocabulary text, window context and page discovery in adapters/accessibility/field.py: bounded walks of a foreign tree.
- Link._exchange and connect (adapters/session/link.py:99-136, 198-216): one comparison of identifiers for each reply; a deadline that passes inside a receive, the socket's own error, counts as a timeout.
- Receipts, pruning of backups, directories, ownership and modes of backup files, download of models: plumbing around the change map.
- Settings, doctor and status commands, the broker and its editing protocol, the KWin and GNOME focus sources.
- The observer's debug trace.
- The Gecko, native and input-method geometries (adapters/accessibility/geometry.py:105-186): the same checks and reply around other units.
- InlineObjects.InlineText: the exact result is stated for texts whose objects stand at distinct offsets, as hyperlinks do; for any others only that no U+FFFC is left.
- RichLayout.Flatten: hyperlink offsets are natural numbers; the reads of the linked children are given.
- Snapshot.TextWindow: the third reading shares the layout and the window's raw text with the first; its inline objects and all other text may differ.
- Snapshot.SnapshotIsExact: assumes that inline objects show text; without that the two lemmas with an exact condition apply.
- Daemon.Daemon.VerifyCaretLine: whether the caret's line runs left to right (adapters/accessibility/contract.py:541-556) is a free choice; a selection's own text sets no line.
- Daemon.Daemon.ArmFieldEvents: the reads that find the scroll panes above the field (adapters/accessibility/daemon.py:203) admit no invalidation here; the check for one that follows (adapters/accessibility/contract.py:393) refuses the snapshot and withdraws what was subscribed to.
- Daemon.Daemon.Answer: JSON decoding is an unknown function of a frame's bytes, into the four ways it can end.
- Daemon.Daemon.Read: what the main loop does with a watch whose callback raised is not modelled; any later event for that client may or may not come.
- Daemon.Daemon.RegisterProducer: a registration that the registry accepted although its reply was lost or late (the call's 50 ms limit) stays outside the ledger.
- Daemon.Daemon.Dispatch: loss of the desktop, which ends the process, is not a step.
- RestoreProofs.RestoreInvertsAtEveryCrash: equality is of contents, links and absence; a file whose bytes already are the original keeps its present mode, as in the source; files have no directories here, so runs in which one path lies below another, as when a file makes way for a directory, are excluded, and a directory that is left behind is not seen.
- RestoreProofs.NewestFirstReturnsToStart: excludes paths below one another, also of different runs, for the same reason.
- RepeatedChanges.RestoreInvertsIff: likewise.
- RestoreProofs.Admits: where a copied link leads, and whether the operating system lets a copy be written, are free choices of each change; a copy that fails half-way counts as one that did nothing.
- Geometry.CaretInBound: arithmetic over real numbers, with rounding to two places as an unknown function that is off by 0.005 at most.
