# X server extensions: a verified model

This project models eight components of the X server's extension code and proves what they are for. All claims are
about the model; nothing here runs the server.

- **Xinerama images** (`regions`, `byte_bits`, `blit`, `xinerama`): one GetImage answered from several screens. Boxes
  are fetched screen by screen and copied into the reply; at depth 1 they are shifted and ORed into it bit by bit. The
  main result says what every bit of the reply is, for any layout of screens.
- **Glyph metrics** (`bigfont`): the records of a font are de-duplicated through a growing hash table that lives, with
  its chains and both index tables, in one array of 16-bit words. The reply is lossless and minimal, for any hash function.
- **SYNC** (`sync_*`): counters, alarms, awaits and brackets. `SyncModel` to `SyncRuns` give the protocol as functions on
  a state and prove its invariants over every run; `SyncServer.Server` has the procedures of the server as methods that
  update its tables in place, each tied to those functions. `SyncEvents` says what clients get to see: which events are
  sent, and when requests fire, in terms of their attributes. `SyncBrackets` has the brackets of system counters, and
  `SyncSystem` compares a server that checks the triggers of such a counter only where a bracket is reached with one that
  checks them at every value.
- **Double buffering in a select plane** (`double_buffer`): the cached back-buffer region and the plane agree with the
  clip lists of the windows.
- **Property access rules** (`glob`, `security`): the wildcard matcher against a declarative reading of patterns, and the
  sorted rule list against the rules in file order.
- **Multibuffering** (`timestamps`, `sleepuntil`, `buffer_images`, `multibuffer*`, `display_times`): buffer ids move
  between a window and pixmaps, display requests sleep on a queue, and time stamps carry into months of 2^32 ms.
- **XTrap** (`xtrap`, `xtrap_packets`): which procedures are swapped for several clients, and how data are cut into packets.
- **Requests per screen** (`value_lists`, `ones`, `screen_requests`, `screen_points`): packed value lists and point lists are
  rewritten in the request buffer for each screen.

Where the code does not do what its comments or its protocol promise, the model follows the code, and a lemma says when
the promise is kept:

- The pattern matcher accepts exactly the strings that a pattern describes if and only if the pattern does not end in
  two stars (`Glob.ExactIff`). Two adjacent stars elsewhere do no harm. `Glob.TwoStarsMatch` says which strings such a
  pattern matches.
- The return codes of the access hooks are said to increase with strictness, but ERROR is 0, ALLOW 1 and IGNORE 2
  (`Xext/xace.h:24-26`), and the answer starts out as ALLOW (`Xext/xace.c:97-103`). It is as strict as the policy if and
  only if some rule applies and the first that does asks for no error (`Security.AsStrictIff`): both a rule's error and
  the default action, which is an error, are lost (`Security.ErrorIsLost`, `Security.DefaultIsLost`).
- A ChangeAlarm that fails has changed the alarm already. It leaves a trigger on no list if and only if its value
  overflows on the way to another counter (`SyncRuns.FailedChangeAlarm`, `SyncRuns.MovedOffItsList`). A new test type that
  comes with an unknown counter is stored, but the trigger is still checked by the old one
  (`SyncRuns.ChecksWithOldProcedure`). `SyncRuns.FailedChangeAlarmIff` says exactly which failures keep the whole invariant.
- Bracket values are there so that a system counter need be checked only where it reaches one. The server time keeps to
  that (`SyncSystem.ServerTimeIsEager`), but the idle time may stop watching one bracket when only the other is narrowed,
  and then miss an alarm (`SyncSystem.IdleTimeMissesAlarm`). `SyncSystem.AttendsIff` has the exact condition for the next
  reading, and `SyncSystem.EagerIffAttended` for all of them. Negative transitions below the counter's value do not
  narrow the brackets at all (`SyncBrackets.NegativeTransitionMissed`, `SyncBrackets.TransitionCaughtIff`).
- Where `char` is signed, the bit copy sets bits behind every source byte whose last pixel is set, unless they are set
  anyway: `Blit.SignedCopyIff`, `Blit.SignedByteSmears`. Everything else about images is for unsigned bytes.
- The contents of a window with static bit gravity are moved vertically by its horizontal displacement:
  `BufferImages.DisplacementIff`, `BufferImages.StaticContentsSlip`.
- Displaying the buffer that is displayed already overwrites the window with an unused pixmap, unless the update action
  is Untouched: `BufferImages.RedisplayIff`, `BufferImages.RedisplayLosesImage`.
- An XTrap client that has asked for an event that no device has leaves its request flags counted when it departs, and
  those requests trapped: `XTrap.ClearedIff`, `XTrap.DepartedClientStillTraps`.

The cached back-buffer region relies on the window system: it comes right if each window gets one clip list in a
validation, however often that list is reported. `mi/mivaltree.c` and `mi/miwindow.c:1152-1164` do so: a window that a
resize has unmapped is reported twice, both times without a clip list. `DoubleBuffer.ValidationIsRight` gives the exact
condition for any sequence of reports, and `DoubleBuffer.TwoListsLeaveTheFirst` one that would go wrong.

Collections that the server keeps in linked lists are sequences, resource tables are maps, regions are finite sets of
points. What the code gets from elsewhere is a parameter: the decomposition of a region into boxes, the images that the
screens' drivers return, the hash function, clock readings, the answers of the single screens, the contents of new memory.

## Model

| member | source | states |
|---|---|---|
| Blit.CopyBits | Xext/panoramiX.c:1144-1155 | every bit of the source arrives `shiftL` bits further on, ORed into the destination; no other bit changes, and the byte after the last is the only one written beyond |
| Blit.CopySignedBits | Xext/panoramiX.c:1144-1155 | where `char` is signed, the same bits arrive, and besides them ones behind every source byte whose last pixel is set, from the shift to the end of the byte |
| Blit.SignedCopyIff | Xext/panoramiX.c:1144-1155 | that does no harm if and only if those bits are set before, or by the next source byte |
| Blit.SignedByteSmears | Xext/panoramiX.c:1144-1155 | one byte with its last pixel set, copied one bit further on, sets a bit that it should leave clear |
| Blit.Memcpy | Xext/panoramiX.c:1263-1271 | the bytes from index d on are those of the source, all others stay |
| Blit.BlitBytes | Xext/panoramiX.c:1265-1272 | the whole bytes of one row of a box arrive at their bit position, whether copied or shifted |
| Blit.BlitBitRow | Xext/panoramiX.c:1262-1279 | one row of w bits arrives, leftover bits included, in a buffer that is clear there; bits outside the box stay |
| Blit.CleanEdge | Xext/panoramiX.c:1255-1260 | in every row of the scratch image the bits from the width on, up to the end of their byte, are cleared; all others stay |
| Blit.BlitBitBox | Xext/panoramiX.c:1245-1280 | a depth-1 box arrives at its place for any shift and leftover; nothing outside it changes |
| Blit.BlitByteBox | Xext/panoramiX.c:1281-1291 | a box of whole-byte pixels arrives at its place; nothing outside it changes |
| ByteBits.OrLow | Xext/panoramiX.c:1136-1151 | ORing SHIFT_L of a byte adds its low bits from the shifted position on and nothing else |
| ByteBits.OrHigh | Xext/panoramiX.c:1136-1152 | ORing SHIFT_R of a byte adds the bits that SHIFT_L loses, at the start of the next byte |
| ByteBits.OrSigned | Xext/panoramiX.c:1136-1152 | ORing SHIFT_R of a signed byte fills the rest of the next byte with ones if bit 7 is set |
| Xinerama.AssembleBox | Xext/panoramiX.c:1220-1293 | if the image agrees with the framebuffer on a region, it agrees on the region and a new box after the box is written |
| Xinerama.FetchBox | Xext/panoramiX.c:1237-1244 | scratch memory that is large enough, the old or new, holds the framebuffer's pixels of the box row by row |
| Xinerama.CopyBox | Xext/panoramiX.c:1220-1293 | one fetched box extends the region on which the image agrees with the framebuffer |
| Xinerama.CopyGrab | Xext/panoramiX.c:1212-1295 | so does a whole intersection of source and screen, however it decomposes into boxes |
| Xinerama.WholeImage | Xext/panoramiX.c:1203-1208 | the fast path gives an image that shows what the piecewise path has to show |
| Xinerama.XineramaGetImageData | Xext/panoramiX.c:1163-1307 | every pixel of the source box that some screen covers has its framebuffer value, and every other bit of the reply is unchanged, but for the padding of rows when one screen fills the whole box. In terms of the request: on the root, column b of row r is bit b%bpp of the framebuffer at (left + b/bpp, top + r); of another window it is what the driver of any screen that shows the pixel gives for those coordinates of the drawable; and if one screen shows all of it, the reply is that of its driver |
| Xinerama.CoveredMeans | Xext/panoramiX.c:431-454 | the covered region is the union of the screens' rectangles |
| Xinerama.PixelColumn | Xext/panoramiX.c:1282-1289 | a bit of a row lies in the columns of a box if and only if its pixel does, and keeps its place in the pixel when columns are counted from the box |
| Bigfont.ClearHash | Xext/xf86bigfont.c:576-577 | all chains are empty; the index tables are unchanged |
| Bigfont.Lookup | Xext/xf86bigfont.c:582-594 | the chain walk ends; it finds the entry with the value if there is one, and the end mark if and only if there is none |
| Bigfont.Link | Xext/xf86bigfont.c:620-623 | a new entry is at the head of the chain of its hash, and all others stay on theirs; only after entry 65535, which looks like the end mark, nothing is said of the chains, and they are not used again |
| Bigfont.ChainedAfterLink | Xext/xf86bigfont.c:614-622 | after linking, following `next` from a head still visits the entries of that hash exactly, in strictly decreasing order |
| Bigfont.Rehash | Xext/xf86bigfont.c:606-616 | after the table has grown every unique entry is on the chain of its new hash; the index tables are unchanged |
| Bigfont.Allocate | Xext/xf86bigfont.c:599-625 | a new value becomes the next unique entry, with growth of the table if need be, inside the four slices |
| Bigfont.RemoveDuplicates | Xext/xf86bigfont.c:544-627 | the unique entries are the first occurrences of the values, in order, and every record is indexed to the entry with its value, for up to 65536 records, when the last index equals the end mark |
| Bigfont.WriteReply | Xext/xf86bigfont.c:705-723 | the reply has the records of the unique entries, then the indices |
| Bigfont.QueryFont | Xext/xf86bigfont.c:539-723 | the reply is lossless: every character's record is the one at its index; and the records are pairwise different |
| Bigfont.FirstOccurrencesAre | Xext/xf86bigfont.c:598-625 | an index is among the first occurrences if and only if no earlier record has its value |
| Bigfont.FirstOccurrencesIncrease | Xext/xf86bigfont.c:598-625 | the unique entries are in the order of the font |
| Bigfont.Minimal | Xext/xf86bigfont.c:539-627 | there are exactly as many unique entries as values: no table with fewer records could be lossless |
| SyncModel.DeltasAreLeast | Xext/sync.c:663-714 | the number of deltas added to a comparison alarm is the least that makes its trigger false |
| SyncModel.WrongWay | Xext/sync.c:684-693 | deltas of the wrong sign never make a comparison false: adding them ends with an overflow only |
| SyncServer.Advance | Xext/sync.c:663-714 | the loop ends; it computes old + k*delta for that least k, or reports the INT64 overflow that comes first; a transition alarm advances one delta |
| SyncEvents.AlarmFiredMeans | Xext/sync.c:647-715 | that is what going off does to the alarm and to the events: the state announced is the one afterwards, the test value the one before |
| SyncServer.Server.constructor | Xext/sync.c:2371-2420 | the empty tables satisfy the invariant |
| SyncServer.Server.DeleteTriggerFromCounter | Xext/sync.c:303-337 | the trigger leaves the list of its counter, and no other trigger does |
| SyncServer.Server.AddTriggerToCounter | Xext/sync.c:340-367 | the trigger is on the list of its counter once, whether or not it was before |
| SyncServer.Server.AlarmTriggerFired | Xext/sync.c:647-715 | an Active alarm advances by the first number of deltas that makes it false, or becomes Inactive if it is stuck or would overflow; it appends one event, with the value of its counter, the test value from before and the state from after; an alarm that is not Active appends none |
| SyncSteps.AlarmFiredSettles | Xext/sync.c:663-714 | an alarm that has gone off is Inactive or no longer true |
| SyncServer.Server.FreeAwait | Xext/sync.c:1287-1312 | the await is gone, and its conditions from every list that is not being destroyed |
| SyncServer.Server.AwaitTriggerFired | Xext/sync.c:723-811 | the await is gone from the tables and the lists, its client gets a CounterNotify for exactly the conditions that are due, in order, each with its test value, the value of its counter and the number that follow, and is attended to |
| SyncSteps.AwaitFiredReleasesOnce | Xext/sync.c:723-811 | a client has been released as often as it was blocked after its await fires |
| SyncEvents.AwaitFiredMeans | Xext/sync.c:723-811 | a condition is due if its counter is being destroyed, or if its value lies at least (positive tests) or at most (negative ones) the threshold from the test value, and the difference is an INT64 |
| SyncSteps.AwaitFiredKeepsLists | Xext/sync.c:723-811 | an await that fires leaves no trigger on any counter that survives |
| SyncServer.Server.SyncChangeCounter | Xext/sync.c:818-840 | walking the list while triggers fire and lists change is the walk over the list as it was: the saved next pointer stays valid. Exactly the Active alarms on the counter whose test is met advance, with one event each, and exactly the awaits with such a condition are gone |
| SyncServer.StaysOn | Xext/sync.c:828-834 | firing one trigger leaves the rest of the list in place, if no await is on it twice |
| SyncSteps.FireSettles | Xext/sync.c:828-834 | a trigger that fires is settled, and the others stay so |
| SyncSteps.CounterChangedKeeps | Xext/sync.c:818-840 | a counter change keeps the whole invariant, quiescence included |
| SyncRuns.AlarmsFireExactly | Xext/sync.c:828-834 | one walk makes an alarm go off if and only if it is on the list and was true when the walk began |
| SyncEvents.OneEventEach | Xext/sync.c:828-834 | one walk appends one event for each Active alarm of the list that was true when it began, and none for any other alarm |
| SyncEvents.EventIsSent | Xext/sync.c:828-834 | that event carries the counter's value, the test value from before the walk and the state from after it |
| SyncRuns.AwaitsFireExactly | Xext/sync.c:828-834 | an await survives the walk if and only if none of its conditions on the list was true when it began |
| SyncEvents.ChangeReacts | Xext/sync.c:818-840 | whenever a counter changes, an Active alarm on it goes off if and only if the new value meets its test, and an await is gone if and only if the new value meets one of its conditions |
| SyncServer.Server.SetCounter | Xext/sync.c:1551-1578 | the counter has the new value and its triggers have reacted to the change, or the counter is unknown and nothing has changed |
| SyncServer.Server.ChangeCounter | Xext/sync.c:1583-1618 | the amount is added and triggers react to that, or it overflows INT64, or the counter is unknown, and nothing has changed |
| SyncRuns.SetCounterKeeps | Xext/sync.c:1551-1618 | setting and changing counters keep the invariant |
| SyncServer.Server.CreateCounter | Xext/sync.c:1530-1546 | a new counter has the value and no triggers |
| SyncRuns.WithNewCounterKeeps | Xext/sync.c:1017-1041 | a new counter keeps the invariant |
| SyncServer.Server.DestroyCounter | Xext/sync.c:1623-1646 | the tables are those after the list has been emptied from its head; each alarm of the counter sends one event that it is Inactive, and each client that waits for it is told that it has been destroyed |
| SyncServer.Server.FreeFirst | Xext/sync.c:1243-1250 | the head of a dying counter's list is told and leaves the list: an alarm becomes Inactive without a counter and says so with the value and test value that it had, an await fires |
| SyncDestroy.DestroyAllExactly | Xext/sync.c:1235-1281 | exactly the alarms of the counter become Inactive without a counter, and exactly the awaits that name it fire |
| SyncEvents.CounterGoneIs | Xext/sync.c:1235-1281 | destroying a counter sends one Inactive event for each of its alarms and a CounterNotify with the destroyed flag for each condition of an await on it |
| SyncDestroy.CounterDestroyedKeeps | Xext/sync.c:1235-1281 | destroying a counter keeps the invariant, releases included |
| SyncServer.Server.InitTrigger | Xext/sync.c:428-538 | an absolute value is the test value, a relative one is added to the value of the counter; the trigger is checked by its test type and on the list of its counter, or the first error is found: an unknown counter leaves it alone, its check procedure included; a value that overflows leaves the wrapped sum in it and the trigger off its old list |
| SyncServer.Server.Await | Xext/sync.c:1652-1762 | the first error is returned and nothing has changed; or the await waits with the test values of its conditions and its client is blocked, or if a condition is true from the start, it fires after that |
| SyncServer.Server.RegisterConditions | Xext/sync.c:1700-1742 | all conditions are on the lists of their counters, or none after an error |
| SyncServer.Server.CheckConditions | Xext/sync.c:1746-1760 | the await fires if and only if one of its conditions is true now |
| SyncRequests.AwaitUndone | Xext/sync.c:1652-1762 | freeing an await that was being registered gives back the state before: a failed Await leaves no trace |
| SyncRequests.AwaitAccepted | Xext/sync.c:1703-1760 | an accepted await fires at once or starts out with no comparison true |
| SyncEvents.ConditionMeans | Xext/sync.c:470-521 | a wait condition is accepted if and only if its counter is known and a relative value does not overflow; its test value is the wait value, or that added to the counter |
| SyncEvents.AwaitAnswerIs | Xext/sync.c:1652-1742 | an Await without conditions is a BadValue, and else the first condition with an error decides |
| SyncEvents.AwaitFiresAtOnceIff | Xext/sync.c:1746-1760 | an accepted Await fires at once if and only if a comparison is true from the start; a relative positive one by d if and only if d <= 0 |
| SyncEvents.AwaitFiresLaterIff | Xext/sync.c:428-538 | an Await that waits fires when the counter moves so that one of its conditions comes true, a relative one counted from the value that the counter had when it was set up |
| SyncRequests.AwaitRequestKeeps | Xext/sync.c:1652-1762 | an Await that names no counter twice keeps the invariant, whether or not it succeeds |
| SyncServer.Server.ChangeAlarmAttributes | Xext/sync.c:916-1014 | the attributes are stored in order, and the trigger rebound; an error leaves the attributes stored before it, the old check procedure after a bad sign or an unknown counter, and the wrapped sum after an overflow |
| SyncEvents.ChangedMeans | Xext/sync.c:916-1014 | the attributes that are named replace those of the alarm, its test value follows from them, and errors are found in the order of the code |
| SyncEvents.FailureMeans | Xext/sync.c:916-1014 | what a ChangeAlarm that fails leaves: value type, wait value, test type and delta are stored in any case, the counter and the test value only if the error is in the value, and then the test value is the sum modulo 2^64 |
| SyncServer.Server.ChangeAlarm | Xext/sync.c:1896-1935 | the alarm becomes what the request asks for, with a relative value added to the counter, and goes off if it has no counter or is true now; or it fails with the first error and with what has been stored; the invariant is kept unless the failure is one of those that break it |
| SyncServer.Server.CreateAlarm | Xext/sync.c:1816-1891 | a new alarm has what the request names and else the defaults, and goes off at once exactly if it is true from the start; or the first error leaves everything as it was |
| SyncEvents.ChangeAlarmMeans | Xext/sync.c:1896-1935 | a successful ChangeAlarm leaves the alarm that was asked for, or what it becomes by going off at once |
| SyncEvents.CreateAlarmMeans | Xext/sync.c:1816-1891 | a new alarm goes off at once if and only if its test is true from the start, and without a counter it is Inactive |
| SyncEvents.AlarmGoesOffLaterIff | Xext/sync.c:428-538 | if it does not, it goes off when its counter comes to a value that meets its test, a relative one counted from the value that the counter had when the alarm was created |
| SyncServer.Server.DestroyAlarm | Xext/sync.c:2000-2017 | the alarm is off its list and gone, after a last event with the value of its counter, its test value and the state Destroyed |
| SyncEvents.AlarmGoneIs | Xext/sync.c:1205-1229 | the last event of an alarm has the value of its counter, 0 without one, its test value and the state Destroyed; no other alarm and no await changes |
| SyncRuns.ChangeAlarmKeeps | Xext/sync.c:1896-1935 | a ChangeAlarm keeps the invariant if it succeeds, and if it fails harmlessly |
| SyncRuns.CreateAlarmKeeps | Xext/sync.c:1816-1891 | CreateAlarm keeps the invariant, whether or not it succeeds |
| SyncRuns.DestroyAlarmKeeps | Xext/sync.c:2000-2017 | DestroyAlarm keeps the invariant |
| SyncRuns.FailedChangeAlarm | Xext/sync.c:916-1014 | a failed ChangeAlarm leaves all triggers registered if and only if the sign of the delta was refused, or the relative value does not overflow on the way to another counter |
| SyncRuns.FailedChangeAlarmIff | Xext/sync.c:916-1014 | it keeps the whole invariant if and only if the sign was not refused, a new test type did not come with an unknown counter, the value does not overflow on the way to another counter, and the alarm was not Active or has been left with a trigger that is false |
| SyncRuns.ChecksWithOldProcedure | Xext/sync.c:440-502 | an Active alarm that waits for 5 and is to wait for an unknown counter by a negative transition still goes off when its counter comes up to 5 |
| SyncRuns.MovedOffItsList | Xext/sync.c:474-521 | an Active alarm that is to move to a counter at the largest value, by a relative value of 1, is on no list afterwards |
| SyncRuns.EveryRunIsQuiescent | Xext/sync.c:648-840 | after any run of requests every Active alarm and every condition of a pending await is checked by its test type; a positive comparison has a test value above its counter, a negative one a test value below it |
| SyncRuns.EveryRunIsRegistered | Xext/sync.c:303-367 | after any run each counter's list has exactly the triggers that point at it, once each |
| SyncRuns.EveryRunReleases | Xext/sync.c:724-811 | after any run each client was released once for each time it was blocked, but for the await it waits in now |
| SyncBrackets.SystemCounter.ComputeBracketValues | Xext/sync.c:1119-1201 | the brackets are narrowed by every trigger on the list, from the widest if starting over; the counter's own procedure is left with pointers to exactly those that were narrowed, and with those it had if none was |
| SyncBrackets.BracketsAreNearest | Xext/sync.c:1145-1170 | the brackets are the least PositiveComparison test value above and the greatest NegativeComparison test value below |
| SyncBrackets.StaysFalseInside | Xext/sync.c:1145-1170 | no move strictly inside the brackets turns a false comparison true, whatever else is on the list, transitions included, and wherever the brackets were before |
| SyncBrackets.StaysFalseBelowGreater | Xext/sync.c:1149-1159 | for a counter that never decreases, no move up short of the upper bracket does |
| SyncBrackets.TransitionCaughtIff | Xext/sync.c:1171-1194 | no move inside the brackets makes a positive transition true, and none a negative one if and only if its test value is not below the counter's or another trigger has narrowed the lower bracket that far |
| SyncBrackets.NegativeTransitionMissed | Xext/sync.c:1171-1194 | a negative transition at 3 leaves the brackets at 5 as wide as can be, and the move to 2 makes it true inside them |
| SyncBrackets.BracketsAreTight | Xext/sync.c:1139-1170 | at a bracket computed anew that is not a limit of INT64 some trigger fires |
| SyncSystem.ShortOfBrackets | Xext/sync.c:818-840 | short of the brackets that are watched a change of the counter has no effect but the value, if the bracket on the side of every live trigger that can become true is watched |
| SyncSystem.BracketsCover | Xext/sync.c:1119-1201 | after a check, brackets narrowed from any earlier ones cover every alarm that is still Active and every await that is still pending |
| SyncSystem.LazyIsEager | Xext/sync.c:2583-2601 | over any path of values, a server that checks the counter only where a bracket is reached, and then narrows the brackets, ends with the same alarms, awaits, trigger lists, blocked clients and events as one that checks every value, if it goes on watching both brackets |
| SyncSystem.WatchedIsEager | Xext/sync.c:2583-2601 | so it does with whatever pointers it is given, as long as the bracket on the side of every live trigger that some reading makes true is watched |
| SyncSystem.AttendsIff | Xext/sync.c:818-840 | that condition is exact at each step: it holds if and only if no next reading that reaches no watched bracket has an effect |
| SyncSystem.WalkHands | Xext/sync.c:303-337 | computing the brackets anew when awaits leave the list during the walk keeps the upper pointer of a counter that never decreases |
| SyncSystem.EagerIffAttended | Xext/sync.c:1119-1201 | and along whole paths, for any range of readings: both servers agree on all paths if and only if it holds on all of them |
| SyncSystem.ServerTimeIsEager | Xext/sync.c:2440-2525 | the counter of the server time, once its bracket is watched, agrees with the eager server on every path |
| SyncSystem.IdleTimeMissesAlarm | Xext/sync.c:2583-2622 | the idle time does not: an alarm that is no longer Active narrows the upper bracket, the lower one is no longer watched, and the next alarm below does not go off |
| DoubleBuffer.Screen.constructor | Xext/mbufbf.c:235-248 | the whole screen is to be subtracted at the first validation |
| DoubleBuffer.Screen.DrawSelectPlane | Xext/mbufbf.c:611-659 | painting the rectangles of the region's boxes selects the buffer at exactly the points of the region; every other point keeps its selection |
| DoubleBuffer.Screen.ClipNotify | Xext/mbufbf.c:823-837 | a changed clip list is remembered, and queued for subtraction and union if the window shows its back buffer |
| DoubleBuffer.Screen.PostValidateTree | Xext/mbufbf.c:754-795 | the region and the plane have taken in what was queued, and the queues are empty |
| DoubleBuffer.Screen.ValidateTree | Xext/mbufbf.c:733-851 | each window has the clip list that was reported last; after one validation the region and the plane are the union of the clip lists of the windows that show their back buffer, if and only if the condition of `DoubleBuffer.ValidationIsRight` holds, as it does at the first validation and whenever no window gets two clip lists |
| DoubleBuffer.BackAfterIs | Xext/mbufbf.c:776-780 | subtracting before adding gives the new back windows and every clip list that was queued |
| DoubleBuffer.ValidationIsRight | Xext/mbufbf.c:754-837 | for any sequence of changes the region and the plane come out right if and only if all that was gained is shown in the end and all that was gained and lost was shown at the start |
| DoubleBuffer.OrderlyValidation | Xext/mbufbf.c:754-837 | one clip list a window, however often it is reported, is enough for that |
| DoubleBuffer.TwoListsLeaveTheFirst | Xext/mbufbf.c:754-837 | one window with its back buffer that is given two clip lists one after the other would leave the first of them in the region |
| DoubleBuffer.Screen.DisplayImageBuffers | Xext/mbufbf.c:663-728 | region and plane keep agreeing with the windows; exactly the named windows show the named buffers |
| DoubleBuffer.DisplayingBack | Xext/mbufbf.c:697-702 | showing the back buffer adds exactly the window's clip list to the union, showing the front buffer removes it |
| DoubleBuffer.Screen.CreateImageBuffers | Xext/mbufbf.c:358-407 | a window with new buffers shows the front buffer; region and plane still agree |
| DoubleBuffer.Screen.DestroyImageBuffers | Xext/mbufbf.c:410-443 | a window that showed its back buffer shows the front buffer; region and plane still agree |
| DoubleBuffer.Screen.CreateWindow | dix/window.c:602-761 | a new window has no clip list; region and plane still agree |
| DoubleBuffer.Screen.DeleteWindow | dix/window.c:926-958 | a window that goes after it has lost its clip list and its buffers leaves region and plane right |
| Glob.MatchString | Xext/security.c:1661-1687 | the loop and recursion end and decide the matcher's relation |
| Glob.NeverTooMuch | Xext/security.c:1661-1687 | a string that matches is one that the pattern describes, each star standing for any string |
| Glob.NeverTooLittle | Xext/security.c:1661-1687 | unless the pattern ends in two stars, every string that it describes matches |
| Glob.TwoStarsNeedOneMore | Xext/security.c:1685-1686 | a pattern that ends in two stars does not match the string that leaves its stars out |
| Glob.TwoStarsMatch | Xext/security.c:1661-1687 | a pattern followed by two stars matches exactly the strings with a proper prefix that the pattern describes |
| Glob.ExactIff | Xext/security.c:1661-1687 | the matcher is exact for all strings if and only if the pattern does not end in two stars |
| Security.AnyStringMatches | Xext/security.c:1779-1790 | the search through the strings of a property finds a match if and only if one of them matches |
| Security.Policy.CheckRestriction | Xext/security.c:1746-1795 | a rule is taken to apply exactly to the windows that it is about |
| Security.Policy.Add | Xext/security.c:1472-1496 | the list stays sorted by name, keeps file order within a name, and the cutoff is the largest name |
| Security.InsertKeepsOrder | Xext/security.c:1483-1496 | insertion behind all rules with a name no larger keeps the rules about each property in file order |
| Security.Policy.Search | Xext/security.c:1730-1810 | cutoff, skipping and early exit select the rule that a scan of all rules in file order selects first |
| Security.ChoiceIsAbout | Xext/security.c:1737-1744 | the choice depends on the rules about the property only |
| Security.Policy.CheckPropertyAccess | Xext/security.c:1694-1825 | a trusted client, and a window of one that is not, leave the incoming answer, whatever the rules; else, with a rule that applies, the answer is the largest of the incoming one, an allow, and the actions of the first such rule in file order for the kinds of access that are asked for; without one it is the incoming one |
| Security.AsStrictIff | Xext/security.c:1801-1825 | the answer to an access that starts out as allowed is as strict as the policy if and only if some rule applies and the first that does asks for no error |
| Security.DefaultIsLost | Xext/security.c:1255-1255 | without rules the default action is an error, and the access is allowed |
| Security.ErrorIsLost | Xext/security.c:1801-1825 | a rule that makes reading an error lets it through |
| TimeStamps.Later | dix/dixutils.c:105-117 | comparing months, then milliseconds, compares the times |
| TimeStamps.Bump | Xext/mbuf.c:1772-1782 | exactly the milliseconds are added, across the end of a month |
| TimeStamps.Advance | dix/dispatch.c:220-236 | time does not run backwards, and goes to the next time with the clock's reading |
| SleepUntil.Sleepers.ClientSleepUntil | Xext/sleepuntil.c:81-138 | the request is queued before the first later one and the handlers are registered, or they cannot be and nothing has changed |
| SleepUntil.Inserted | Xext/sleepuntil.c:123-135 | the queue stays in order of time, first come first served among equal times |
| SleepUntil.Sleepers.Delete | Xext/sleepuntil.c:151-172 | exactly that request leaves the queue and its client is notified once |
| SleepUntil.Sleepers.Release | Xext/sleepuntil.c:190-203 | exactly the requests not later than now are released, in order, each notified once |
| SleepUntil.Sleepers.BlockHandler | Xext/sleepuntil.c:175-208 | the same; the server does not sleep if it woke a client, and else never longer than until the first request left is due, and exactly that long if and only if it is less than a month away |
| SleepUntil.Sleepers.WakeupHandler | Xext/sleepuntil.c:211-237 | the same; the handlers stay registered if and only if something is pending |
| SleepUntil.Partition | Xext/sleepuntil.c:190-203 | no request is lost or released twice, and those released are those not later than now |
| SleepUntil.DueIsFront | Xext/sleepuntil.c:190-203 | in an ordered queue stopping at the first later request misses none |
| BufferImages.DisplayKeepsImages | Xext/mbuf.c:1145-1235 | displaying another buffer of an unobscured window changes no buffer's image but the previous one's, and that one as the update action says; the background is the painter's color at each point |
| BufferImages.DisplayKeepsVisible | Xext/mbuf.c:1145-1235 | on an obscured window the same holds of every point that can be seen, and the hidden points stay |
| BufferImages.RedisplayIff | Xext/mbuf.c:1145-1235 | displaying the displayed buffer keeps all images if and only if the action is Untouched or the unused pixmap happens to agree |
| BufferImages.RedisplayLosesImage | Xext/mbuf.c:1145-1235 | a window of one pixel that is displayed again under Undefined or Copied takes the color of the unused pixmap |
| BufferImages.ClipCopy | Xext/mbuf.c:1539-1559 | the clipped rectangle is where the shift lands, along both axes |
| BufferImages.ClippedIsMoved | Xext/mbuf.c:1539-1598 | copying the clipped rectangle moves the whole old image, as far as it fits |
| BufferImages.LandsIff | dix/window.c:1768-1825 | along each axis the gravity keeps the distance of a pixel from the near edge, from the far edge, or in the middle with margins that differ by at most 1, for windows that grow and that shrink |
| BufferImages.ResizedIs | Xext/mbuf.c:1523-1598 | each pixel of a resized buffer is the old pixel that lands there; where none does it is the background if the window grew in some direction or the gravity is Forget, else what the new pixmap held |
| MultibufferModel.IdsShowImages | Xext/mbuf.c:1439-1471 | the ids of a window's buffers show its list of images: the displayed one the window, each other one its own pixmap |
| MultibufferModel.AliasKeeps | Xext/mbuf.c:1445-1471 | after rebinding, the displayed id stands for the window and every other for its own pixmap |
| MultibufferModel.ShowKeeps | Xext/mbuf.c:1145-1235 | one display keeps the tables consistent, has its effect on its own window, and on no other |
| MultibufferChanges.AddedKeeps | Xext/mbuf.c:394-422 | a new buffer has a record, an id that stands for its pixmap, and a pixmap of its own |
| MultibufferChanges.DroppedKeeps | Xext/mbuf.c:1616-1675 | with a buffer its pixmap goes, and no other buffer loses anything |
| MultibufferChanges.ReplacedKeeps | Xext/mbuf.c:1599-1608 | a buffer with a new pixmap keeps its id, which stands for the new pixmap unless the buffer is displayed |
| Multibuffering.Server.constructor | Xext/mbuf.c:198-258 | tables without buffers are consistent |
| Multibuffering.Server.AliasMultibuffer | Xext/mbuf.c:1445-1471 | the ids are rebound and the displayed buffer recorded |
| Multibuffering.Server.UpdatePrevious | Xext/mbuf.c:1152-1217 | the update action is carried out on the previous buffer's pixmap |
| Multibuffering.Server.DisplayOne | Xext/mbuf.c:1145-1235 | the window shows the buffer, all else is as for the update action, and the time is recorded |
| Multibuffering.Server.PerformDisplayRequest | Xext/mbuf.c:1130-1236 | every named window, and no other, shows its buffer; each is stamped with the current time |
| Multibuffering.Server.LookUp | Xext/mbuf.c:536-564 | the first bad name is found, or the time from which the request may be carried out |
| Multibuffering.Server.DisplayImageBuffers | Xext/mbuf.c:508-577 | a bad request changes nothing; one that comes too early sleeps until its time; it is carried out only when its delay has passed since the last update of every window it names, unless it cannot be put to sleep |
| DisplayTimes.WakeTimeIs | Xext/mbuf.c:536-566 | the activation time has come if and only if the delay has passed since the last update of every named window |
| DisplayTimes.SpacedOn | Xext/mbuf.c:560-572 | if every display of a window that could wait came its own delay after every earlier one, and the next comes its delay after the last, that holds of all of them |
| Multibuffering.Server.DrawOn | Xext/mbuf.c:1439-1471 | drawing on the id of buffer i changes the i-th image of the window, and no other |
| MultibufferRequests.DrawnIsOneImage | Xext/mbuf.c:1439-1471 | that holds wherever the image is kept |
| Multibuffering.Server.CreateImageBuffers | Xext/mbuf.c:355-505 | ids in use are refused without effect; else the old buffers are gone and there are new ones, the window standing for the first and the others cleared to the background color of each point; every other window has the images it had |
| Multibuffering.Server.FreeLast | Xext/mbuf.c:1616-1675 | the buffer's own pixmap is freed, also when its id stands for the window |
| Multibuffering.Server.DestroyImageBuffers | Xext/mbuf.c:1479-1485 | all buffers of the window and their pixmaps are gone, and every other window has the same images in all its buffers |
| Multibuffering.Server.ResizeBuffers | Xext/mbuf.c:1575-1608 | every buffer has a pixmap of the new size with its moved image, under the same id |
| Multibuffering.Server.PositionWindow | Xext/mbuf.c:1492-1611 | ids keep standing for what they have to across a resize, growing or shrinking; the right column lands in the right column under the gravities of the east, the left column stays under those of the west, and so do rows, while in the middle the margins differ by at most 1; where nothing lands there is the background if the window grew; every other window has the images it had |
| BufferImages.DisplacementIff | Xext/mbuf.c:1526-1531 | that displacement is the one that bit gravity wants if and only if the gravity is not static, or the recorded corner makes up for taking the vertical displacement from x |
| BufferImages.StaticContentsSlip | Xext/mbuf.c:1526-1531 | a window with static gravity that moves 4 to the right has its contents moved 4 up as well |
| XTrap.ClearedIff | XTrap/xtrapdi.c:629-668 | a reset clears all event flags, and the request flags if and only if no flag is of an event that no device has, or there are none; in that case the command key and the packet limit are off too |
| XTrap.StaysWithDevices | XTrap/xtrapdi.c:774-834 | a client that asks for device events only has no other event flags |
| XTrap.OneChanges | XTrap/xtrapdi.c:871-903 | a flag that changes makes one client more, or less, that wants the entry, and changes no other count |
| XTrap.Vector.constructor | XTrap/xtrapdi.c:426-456 | at first nothing is trapped |
| XTrap.Vector.Change | XTrap/xtrapdi.c:883-896 | the counter stays the number of clients, and the procedures are exchanged exactly while it is positive |
| XTrap.Vector.Dispatch | XTrap/xtrapdi.c:1058-1251 | dispatching always reaches the server's own procedure, through the hook exactly if a client wants it |
| XTrap.Trap.ChangeFlags | XTrap/xtrapdi.c:871-903 | exactly the chosen flags change, counted one by one |
| XTrap.Trap.ConfigEvents | XTrap/xtrapdi.c:774-834 | the same for the events; an event that no device has is an error after it has been counted |
| XTrap.Trap.Config | XTrap/xtrapdi.c:763-903 | counts and tables stay right; the flags that the masks name below the table size are as wanted and no others change; an event outside KeyPress to MotionNotify that changes, or a packet size below 32, is an error that leaves the request flags as they were |
| XTrap.Trap.Reset | XTrap/xtrapdi.c:629-668 | the flags are cleared as far as `XTrap.ClearedIff` says, and counts and tables stay right |
| XTrap.Trap.CreateEnv | XTrap/xtrapdi.c:484-530 | a new client wants nothing |
| XTrap.Trap.DestroyEnv | XTrap/xtrapdi.c:192-224 | a departed client contributes nothing, except for the request flags that a reset does not clear |
| XTrap.Trap.Perform | XTrap/xtrapdi.c:548-576 | any request or departure keeps the invariant |
| XTrap.Trap.TrappedIffWanted | XTrap/xtrapdi.c:871-903 | a request is trapped if and only if a connected client has its flag or a departed one has left it behind, and can be forwarded |
| XTrap.Trap.EventTrappedIffWanted | XTrap/xtrapdi.c:774-834 | the same for events; none of their flags is ever left behind |
| XTrap.NothingIsLeftBehind | XTrap/xtrapdi.c:192-224 | over any run of requests for device events no departed client leaves a flag behind |
| XTrap.DepartedClientStillTraps | XTrap/xtrapdi.c:825-871 | asking for another event and a request, and departing, leaves the request counted without a client |
| XTrapPackets.WriteXLib | XTrap/xtrapdi.c:1720-1760 | packets are numbered from 0, marked Start, Continued and Last, carry the data in order and zeros after it, and the result is the number of bytes |
| XTrapPackets.Received | XTrap/xtrapdi.c:1720-1760 | from a stream of packets the first datum can be told from the next and is given back |
| OnesTrick.CountOnes | dix/devices.c:1465-1473 | the octal masks and the remainder by 63 give the number of bits of any 32-bit mask |
| OnesTrick.HalvesCount | dix/devices.c:1470-1471 | the two subtractions leave the number of bits of each octal digit in its place |
| OnesTrick.PairsKept | dix/devices.c:1472 | adding neighbours and keeping every other digit loses no count and carries nothing |
| OnesTrick.RemainderAdds | dix/devices.c:1472 | the remainder by 63 adds up the counts |
| ValueLists.DecodeIs | Xext/panoramiXprocs.c:103-129 | Ones(mask & (bit - 1)) is where the value of a bit is found when values are read lowest bit first |
| ValueLists.WriteSlot | Xext/panoramiXprocs.c:156-161 | writing there changes the attribute of that bit and no other |
| ValueLists.SlotsIncrease | Xext/panoramiXprocs.c:103-129 | different attributes have different slots |
| ScreenRequests.Overwritten | Xext/panoramiXprocs.c:149-166 | a value list that is overwritten from screen to screen decodes to the client's attributes with only the rewritten ones replaced |
| ScreenRequests.NamedMeans | Xext/panoramiXprocs.c:103-129 | an attribute that names a resource is an error exactly if it is given, names something and that is unknown; else screen j gets the j-th id of the resource |
| ScreenRequests.ConfigureWindow | Xext/panoramiXprocs.c:442-505 | screen j gets its own ids of the window and the sibling and, on the root, x and y that are the client's once its origin is added, modulo 2^32; all other attributes are the client's; it stops at the first refusal; an unknown window or sibling sends nothing |
| ScreenRequests.FirstSlots | Xext/panoramiXprocs.c:477-488 | the offsets 0 and 1 that are used for x and y are their slots |
| ScreenRequests.CreateWindow | Xext/panoramiXprocs.c:74-174 | last screen first, screen j gets its own ids of the window, parent, pixmaps and colormap, its visual, and on the root x and y that are the client's once its origin is added, modulo 2^16; errors are found in the order of the code; the window is known if all screens made it |
| ScreenRequests.CreateGC | Xext/panoramiXprocs.c:715-790 | screen j gets its own ids of the GC, drawable, tile, stipple and clip mask; all other attributes are the client's |
| ScreenPoints.AllMove | Xext/panoramiXprocs.c:1285-1294 | moving all points, or only the first if each is relative to the one before, moves all absolute points, modulo 2^16 |
| ScreenPoints.SendPoints | Xext/panoramiXprocs.c:1272-1303 | on every screen, in both modes, each point drawn is the client's once the screen's origin is added, modulo 2^16, although the buffer is reused (the same loop is at lines 1333-1358 and 1572-1597) |
| ScreenPoints.MovePoints | Xext/panoramiXprocs.c:1286-1293 | exactly the first n points of the buffer move |

## Left out

- Allocation failure everywhere: the paths that give up when memory runs out.
- Byte swapping, dispatch tables, version queries, replies other than the ones above, audit text, reading the policy file, shared memory.
- Big-endian builds of the bit copy: the least significant bit is the leftmost pixel. `char` as a signed type is considered in the bit copy only.
- The system's region code: a region is a set of points, its decomposition into boxes any list that covers it.
- XineramaGetImageData: formats other than depth-1 planes and depths of whole bytes, and plane masks.
- The hash function of glyph metrics is any function; that it spreads well is not stated.
- SYNC event selection: every alarm event is recorded once, not once for each client that selected it; its list is not modelled.
- SYNC value lists are taken as decoded attributes, and unknown test or value types are not among them.
- SYNC client departure, and priorities.
- SyncRequests.AwaitRequestKeeps: an Await that names one counter twice is outside, because the walk over the list then follows a pointer that has been freed.
- SyncRuns.EveryRunIsQuiescent: runs end at a ChangeAlarm whose failure breaks the invariant; which those are is `SyncRuns.FailedChangeAlarmIff`.
- SyncServer.Server.AlarmTriggerFired: an alarm that is checked by another than its test type, which only such a failure leaves behind, is outside.
- SyncRuns.FailedChangeAlarm: the header with the 64-bit addition is not part of the repository; a sum that overflows is taken to be stored modulo 2^64.
- SyncSystem.LazyIsEager: counters with transition triggers, and changes of the trigger list other than by firing, which compute the brackets anew; queries, which refresh the value; no system counter is one that never increases.
- Select-plane images: clearing and copying of buffer bits, exposures and clobber events.
- DoubleBuffer.Screen.ValidateTree: that the clip lists do not overlap after a validation is taken from the window system.
- DoubleBuffer.Screen.DisplayImageBuffers: records the displayed buffer itself, as its caller does.
- Security.AnyStringMatches: a string at the end of the data without a terminating zero is taken to end with the data, where the server would read on.
- TimeStamps.Advance: input events that are processed meanwhile, and may advance the time themselves.
- SleepUntil.Sleepers.BlockHandler: takes the time as given; the computation of the month from a signed difference of milliseconds is not modelled.
- Multibuffering.Server.CreateImageBuffers: the ids of one request are taken to be different, and only ids of buffers count as in use.
- Multibuffering.Server.PositionWindow: the recorded corner is an argument, because creation leaves it uninitialized.
- Multibuffering.Server.DestroyImageBuffers: a client that departs frees its buffers one by one instead; that is not modelled.
- Multibuffer events, side and hint attributes, and clearing of image areas.
- XTrap's key gate, statistics, accelerator lists, colour replies, and the device procedures that follow the event table.
- XTrap.Trap.EventTrappedIffWanted: entries of events that no device has hold no procedure; the model lets them change places like the others, but only events of devices are ever dispatched.
- XTrap.Trap.ConfigEvents: the event table is taken to have KeyPress + MotionNotify entries, as its counters do; the header with its size is not part of the repository.
- XTrapPackets.WriteXLib: the header that fixes 24 bytes of data in an event of 32 is not part of the repository.
- Per-screen requests other than the six above, and the panning of shared pixmaps.
