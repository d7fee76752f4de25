# A verified model of MiyoriOS

MiyoriOS puts each application into its own virtual machine, a *space*. This project models the parts of
it that decide something: the root daemon that creates, starts, updates and destroys spaces, the GUI broker
that shares one sandboxed proxy among the connections of a space, the manager window and its requests, the
control protocol between them, the files generated for other programs, and a few exact algorithms. Each
part is stated as a state machine or a function, its code is written as methods over mutable state where
the original is imperative, and its promises are proved for all inputs and all interleavings of steps.

Whatever happens outside the modelled code (spawning, `ip`, `nft`, `qemu-img`, writing files) is a step
whose outcome is a parameter: every statement holds for every outcome. A component's methods are proved
equal to its step function, and the theorems are about that function and about sequences of steps.

| file | what it models |
|---|---|
| `Text.dfy`, `Bytes.dfy` | code point order, decimal and hexadecimal numbers, splitting; UTF-8 |
| `Calendar.dfy` | the civil date of a day number and RFC 3339 timestamps |
| `ProxyBroker.dfy` | reference-counted proxies under a mutex, with reaping and process death |
| `Manager.dfy` | request slots, "again" flags, selection epochs and the operation log of the window |
| `Delivery.dfy` | worker threads pushing droppable progress and one reply into a bounded channel |
| `Json.dfy`, `JsonBytes.dfy`, `JsonRoundTrip.dfy` | the JSON printer and parser under the protocol (RFC 8259) |
| `Lines.dfy`, `Session.dfy` | capped lines; the daemon's responder and the client's exchange |
| `Registry.dfy` | rendering, accepting, searching and merging the registry of spaces |
| `Addresses.dfy`, `Nft.dfy` | port names, MACs and addresses; the bridge ruleset as text and as meaning |
| `Store.dfy` | the list of spaces in memory and on disk, cid allocation |
| `Lifecycle.dfy`, `Operations.dfy` | the daemon's operations as steps, and the code that performs them |
| `LifecycleProofs.dfy` | what every run of the daemon keeps: cids, links, processes |
| `Outcomes.dfy` | what each operation answers and does, code by code, and that it leaves other spaces alone |
| `ImageProofs.dfy` | the images over those runs: when they are rewritten, on the recorded template, encrypted as recorded |
| `Publishing.dfy` | when registry and rules list exactly the stored spaces |
| `Templates.dfy` | concurrent unlocked builds, `latest`, the spaces' overlays, and the pruning script |
| `Font.dfy` | drawing text into a pixel buffer |
| `Shell.dfy` | exporting a manifest as shell assignments, and the shell's reading of them |
| `LossyUtf8.dfy`, `Tails.dfy` | lossy decoding; the last lines of a log and the last tunnel report in it |
| `Focus.dfy` | the window in focus, followed from compositor events |

Six promises one might expect turn out to be false of the code. Each has a lemma with a concrete history,
the exact condition under which one step keeps it, and the same condition carried along whole runs:

| promise | the history | one step | whole runs |
|---|---|---|---|
| the broker's lease count is the number of live connections | `ProxyBroker.OrphanedLeaseKillsNewProxy` | `ProxyBroker.ExactStep` | `ProxyBroker.CountStaysExact` |
| a space's overlay is on the template its config records | `ImageProofs.UpdateCanLeaveMismatch` | `ImageProofs.RecordStep`, `ImageProofs.UpdateRestoresIff` | `ImageProofs.RecordRun`, `ImageProofs.MismatchHistory` |
| images are encrypted as their config says | `ImageProofs.LeftFilesBreakEncryption` | `ImageProofs.KindsStep`, `ImageProofs.CreateKindsIff` | `ImageProofs.EncryptionAsRecorded` |
| registry and rules list the stored spaces | `Publishing.FailedCreateMayStayListed` | `Publishing.AgreementStep` | `Publishing.AgreementLasts` |
| `latest` names a stored template | `Templates.LatestCanDangle` | `Templates.ReadyStep`, `Templates.LatestStep` | `Templates.ReadyRun`, `Templates.LatestRun` |
| no space loses its template to pruning | `Templates.UpdateCanLoseTemplate` | `Templates.BasedStep`, `Templates.LostIsUnrecorded` | `Templates.BasedRun` |

Where code and comments differ, the code is followed. The comment in `tools/prune-templates.sh` about an
unreadable store describes the second guard; an unreadable config already stops the script at the first
assignment, because `pipefail` and `set -e` are on, and the model refuses in both cases.

## Model

| member | source | states |
|---|---|---|
| Calendar.YearOfEraBounds | components/daemon/src/store.rs:248-250 | for every day of a 400-year era the constant-time formula gives the year whose days contain it, without any unsigned subtraction underflowing |
| Calendar.CivilFollowsCalendar | components/daemon/src/store.rs:244-256 | for every integer day the conversion yields a real Gregorian date, and the next day yields the calendar successor of that date |
| Calendar.CivilDayZero | components/daemon/src/store.rs:244-256 | day 0 is 1970-01-01, in the conversion and in the independent day count |
| Calendar.DayNumberOfCivil | components/daemon/src/store.rs:244-256 | counting whole years, months and days up to the converted date gives the day number back, for every integer |
| Calendar.CivilOfDayNumber | components/daemon/src/store.rs:244-256 | converting the day number of any real date gives that date back |
| Calendar.CivilOrder | components/daemon/src/store.rs:244-256 | earlier days convert to earlier dates |
| Calendar.TimestampIsRfc3339 | components/daemon/src/store.rs:236-242 | the text has the form of section 5.6 of RFC 3339 exactly when the seconds stay below the year 10000, and then reads back as the same seconds |
| Calendar.TimestampOrder | components/daemon/src/store.rs:236-242 | up to that bound later seconds give a text that is greater in string order |
| ProxyBroker.LeasesNeverExceedConnections | components/guid/src/broker.rs:152-268 | on every interleaving a recorded proxy has at least one lease and at most one per connection holding one, and a space without connections has no proxy |
| ProxyBroker.ExactStep | components/guid/src/broker.rs:152-268 | one step keeps the count equal to the live connections if and only if it is neither a reap of that space nor a failed restart of its stale proxy |
| ProxyBroker.CountStaysExact | components/guid/src/broker.rs:157-215 | along any sequence without those two events the count stays exact, across restarts |
| ProxyBroker.RefinesReferenceCount | components/guid/src/broker.rs:157-235 | on such sequences the broker is a plain reference count: a proxy exists exactly while a connection does, and only the last release kills it |
| ProxyBroker.OrphanedLeaseKillsNewProxy | components/guid/src/broker.rs:217-268 | without that hypothesis it fails: after a reap an old lease kills the new proxy under a live connection |
| ProxyBroker.ProcessesAreConserved | components/guid/src/broker.rs:152-268 | every process spawned is killed and waited for, recorded for exactly one space, or dropped because no socket appeared, and never two of these |
| ProxyBroker.LeavingIsReaped | components/guid/src/broker.rs:152-268 | a step kills and waits for exactly the process that was recorded before it and is recorded for no space after it |
| ProxyBroker.DroppedIffNoSocket | components/guid/src/broker.rs:174-214 | a step spawns at most one process, and drops one unkilled exactly when it was just spawned for a space without a usable proxy and no socket appeared |
| ProxyBroker.RecordedEndsReaped | components/guid/src/broker.rs:152-268 | over any run a process once recorded is recorded still or killed and waited for, and those dropped unkilled are exactly the ones spawned for a connection without a socket appearing |
| ProxyBroker.RecordEndsIff | components/guid/src/broker.rs:152-268 | a space's process leaves the record if and only if its last lease is released, its cid is found gone, or a connection finds it unusable |
| ProxyBroker.RecordStartsIff | components/guid/src/broker.rs:157-214 | and a new one is recorded if and only if a connection without a usable proxy got it, just spawned, under its cid |
| ProxyBroker.DiesIff | components/guid/src/broker.rs:152-268 | a process dies only by exiting or as it leaves the record |
| ProxyBroker.SocketIff | components/guid/src/broker.rs:174-268 | where a space's socket is after every step: removed before a start, there only after one that worked, and gone with a released or reaped proxy |
| ProxyBroker.StepKeepsInv | components/guid/src/broker.rs:152-268 | every enabled step keeps the process and lease invariants |
| ProxyBroker.Broker.EnsureProxy | components/guid/src/broker.rs:152-215 | performs the ensure step; Ok leaves a live proxy behind a socket, an error leaves none recorded |
| ProxyBroker.Broker.StartProxy | components/guid/src/broker.rs:174-214 | performs the restart with the carried count, including the child dropped when no socket appears |
| ProxyBroker.Broker.ReleaseProxy | components/guid/src/broker.rs:217-235 | performs the release step and keeps the invariant |
| ProxyBroker.Broker.DropProxy | components/guid/src/broker.rs:230-234 | record, process and socket of a proxy go together |
| ProxyBroker.Broker.ReapDeadProxies | components/guid/src/broker.rs:247-268 | the loop drops exactly the proxies whose cid the probe found gone |
| Manager.OneSlotPerReply | components/manager/src/ui.rs:1926-1984 | on every sequence of events at most one request of a kind is outstanding and every final reply matches exactly one slot |
| Manager.NothingStaleIsShown | components/manager/src/ui.rs:2074-2181 | a list or profile set that gets rendered was requested after the last success among the events so far, a rendered detail is that of the selection and was requested after the selection last moved too; both moments are read off the events |
| Manager.NothingStaysStale | components/manager/src/ui.rs:2074-2181 | once nothing is in flight, everything on screen postdates the last success among the events and the details are those of the selection |
| Manager.MutationIsLastSuccess | components/manager/src/ui.rs:2117-2180 | the moment views are judged against is that of the last final reply of a pending action that was a success, whatever the events |
| Manager.ActionEnds | components/manager/src/ui.rs:2117-2181 | a success asks for list, profiles and details again or marks them for it; a failure leaves slots, flags, epoch, view and what is shown as they were |
| Manager.ScreenIsReplies | components/manager/src/ui.rs:2074-2116 | on every run the list on screen and the connection state are those of the reply to the request shown, and so are the details while they are current |
| Manager.SelectionIs | components/manager/src/ui.rs:2215-2460 | which row is selected after every event |
| Manager.CreatedIsSelected | components/manager/src/ui.rs:2160-2165 | a space created last is selected as soon as a list that has it is put on screen |
| Manager.PollAsks | components/manager/src/ui.rs:1952-1984 | polling asks exactly when the window is open and nothing of the kind is on its way |
| Manager.PollAsksDetail | components/manager/src/ui.rs:1962-1974 | so does polling the details of the selection, with the epoch of the moment |
| Manager.ActionSent | components/manager/src/ui.rs:1926-1950 | an action is sent if and only if the window is open and connected and none is pending |
| Manager.Disconnects | components/manager/src/ui.rs:2215-2235 | a list that cannot be shown leaves no connection, rows or selection, and outdates the details asked for |
| Manager.ClosedIsQuiet | components/manager/src/ui.rs:1926-2077 | a closed window sends nothing and shows nothing new |
| Manager.LogIsTheTail | components/manager/src/ui.rs:2003-2011 | the operation log is the last 200 of the lines that the events report for the action, each cut to 1024 characters |
| Manager.EventKeepsInv | components/manager/src/ui.rs:1726-2460 | every event keeps the invariant over slots, flags, epochs and what is shown |
| Manager.Ui.Request | components/manager/src/ui.rs:157-161 | issues a fresh request id and puts it in flight |
| Manager.Ui.RefreshList | components/manager/src/ui.rs:1952-1960 | asks for the list unless closed or already asked |
| Manager.Ui.RefreshDetail | components/manager/src/ui.rs:1962-1974 | asks for details with the epoch of the moment, unless closed, disconnected or already asked |
| Manager.Ui.RefreshNet | components/manager/src/ui.rs:1976-1984 | asks for the network state unless closed or already asked |
| Manager.Ui.RequestProfiles | components/manager/src/ui.rs:1726-1734 | asks for the profiles unless closed or already asked |
| Manager.Ui.SendAction | components/manager/src/ui.rs:1926-1950 | starts one action at a time and clears the log |
| Manager.Ui.SelectSpace | components/manager/src/ui.rs:2396-2460 | moves the selection, advances the epoch when it changed, and asks for details |
| Manager.Ui.FilterSpaces | components/manager/src/ui.rs:2353-2394 | selects among the rows that pass the filter |
| Manager.Ui.RenderSpaces | components/manager/src/ui.rs:2215-2351 | shows a list reply or the unavailable page, reconciling the selection |
| Manager.Ui.HandleListDone | components/manager/src/ui.rs:2078-2086 | an outdated list reply is asked again instead of shown |
| Manager.Ui.HandleDetailDone | components/manager/src/ui.rs:2087-2102 | a detail reply is shown only for the same selection and epoch, otherwise asked again |
| Manager.Ui.HandleProfilesDone | components/manager/src/ui.rs:2108-2116 | an outdated profiles reply is asked again instead of shown |
| Manager.Ui.HandleSuccess | components/manager/src/ui.rs:2160-2180 | after a successful mutation everything on screen is asked again or marked for it |
| Manager.Ui.HandleActionDone | components/manager/src/ui.rs:2117-2181 | takes the pending action, logs its message and follows up on success |
| Manager.Ui.HandleDone | components/manager/src/ui.rs:2074-2181 | dispatches a final reply to the slot it belongs to |
| Manager.Ui.AppendProgress | components/manager/src/ui.rs:2003-2011 | the loop keeps the last 200 lines of the log, each cut to 1024 characters |
| Manager.Ui.HandleProgress | components/manager/src/ui.rs:2025-2042 | progress counts only for the pending action |
| Delivery.DoneOnceAndLast | components/manager/src/daemon.rs:30-46 | over every interleaving a request's updates are the progress its worker reported, in order with gaps, then its reply exactly once and last; the channel never exceeds its bound |
| Delivery.NothingLostWithRoom | components/manager/src/daemon.rs:35-40 | progress is lost only to a full channel |
| Delivery.EverythingArrives | components/manager/src/daemon.rs:35-40 | from the start: with room whenever it speaks, everything a worker reports arrives in order |
| Delivery.Channel.OnProgress | components/manager/src/daemon.rs:35-40 | pushes a cut text if there is room and drops it otherwise |
| Delivery.Channel.SendDone | components/manager/src/daemon.rs:41-44 | pushes the reply once there is room |
| JsonRoundTrip.StrRoundTrip | lib/proto/src/control.rs:140-143 | an escaped string reads back as the string, whatever its bytes |
| JsonRoundTrip.RoundTrip | lib/proto/src/control.rs:140-143 | the printed text of a value parses to that value if it nests less than 128 deep, and to nothing otherwise |
| JsonBytes.PrintBytes | lib/proto/src/control.rs:140-143 | printed JSON is UTF-8 without bytes below U+0020, and has U+007F exactly when a string of the value has |
| Lines.LineIff | lib/proto/src/lib.rs:12-32 | a line is returned, and exactly it consumed, if and only if the input begins with a text without control bytes, valid UTF-8, that fits the cap together with its newline |
| Lines.UnpassableLine | lib/proto/src/lib.rs:20-30 | any other line stops the reader whatever follows |
| Lines.Reader.ReadCappedLine | lib/proto/src/lib.rs:12-32 | the byte loop reads what the function says and leaves the rest unread |
| Session.ReceiveFrame | lib/proto/src/client.rs:25-63 | a frame reaches the client as written if it fits, and ends the exchange with an error if it does not |
| Session.SessionRoundTrip | lib/proto/src/client.rs:25-63 | the client delivers all messages in order, returns the outcome and leaves following bytes unread if and only if every frame fits; otherwise it fails having delivered the messages before the first bad frame |
| Session.Converse | lib/proto/src/client.rs:15-64 | the daemon's writes run against the client's loop: when the bytes get through and every frame fits, the client ends with every message and the outcome, otherwise it fails with the messages before the first bad frame or the cut |
| Session.Respond | components/daemon/src/ops.rs:424-430 | reporting and finishing, whether or not the writes work, leaves the transcript or the part of it the peer takes |
| Session.CutSession | lib/proto/src/client.rs:25-63 | on every strict prefix of a session it fails having delivered a prefix of the messages |
| Session.RequestArrives | lib/proto/src/control.rs:117-133 | the daemon gets the request the client sent if its line passes the 8 KiB cap, has no U+007F and does not nest too deep, and then admits it if and only if its operation is known; otherwise the answer is bad-request |
| Session.ReadRequest | lib/proto/src/control.rs:117-133 | the reader's checks in source order compute that and leave the rest unread |
| Session.TerminalFrameHolds | lib/proto/src/control.rs:162-170 | the terminal frame reads back as the reply of its outcome, code names included |
| Session.CodeNameReadsBack | lib/proto/src/control.rs:86-102 | a failure travels under the kebab-case name of its variant, from which the variant can be read off |
| Session.FrameIs | lib/proto/src/client.rs:31-63 | what the client makes of any frame: a message if it has a `progress` text, otherwise a reply as `ok` says, and malformed in every other case |
| Session.ProgressText | lib/proto/src/control.rs:154-159 | the very bytes of a progress frame |
| Session.SuccessText | lib/proto/src/control.rs:162-170 | and of the terminal frame of a success |
| Session.FailureText | lib/proto/src/control.rs:162-170 | and of a failure |
| Session.Responder.WriteLine | lib/proto/src/control.rs:140-143 | appends one frame and a newline, or the part the peer takes |
| Session.Responder.Progress | lib/proto/src/control.rs:154-159 | appends a progress frame; possible only before the session is finished |
| Session.Responder.Finish | lib/proto/src/control.rs:162-170 | appends the terminal frame and ends the session |
| Session.Client.Exchange | lib/proto/src/client.rs:15-64 | sends the request line, then the loop delivers and returns what the received bytes say |
| Registry.SortSorts | components/daemon/src/render.rs:84-85 | rows come out ordered by cid |
| Registry.Validate | lib/config/src/lib.rs:52-74 | the loop over two sets accepts exactly the registries with safe, distinct ids and distinct unreserved cids, and otherwise names the first bad row and its first fault |
| Registry.SlugIff | lib/config/src/lib.rs:77-82 | an accepted id is one to 32 characters of a fixed alphabet without separators, dots or blanks |
| Registry.ByCidFinds | lib/config/src/lib.rs:48-50 | a search finds a row with the cid, or no row has it |
| Registry.RegistryAgreement | components/daemon/src/render.rs:77-95 | the broker accepts the rendered registry if and only if the listed spaces have distinct unreserved ids and cids; it then finds each space under its cid, miyori-net under 9, nothing elsewhere |
| Registry.MergedIff | components/daemon/src/main.rs:94-122 | merging two lists succeeds if and only if no cid has two ids and no id two cids, and keeps each pair once, the first of its kind |
| Registry.Compare | components/daemon/src/main.rs:97-117 | stopping at the first entry that shares cid or id decides like looking at all of them |
| Registry.MergeEntries | components/daemon/src/main.rs:94-122 | the nested loops do so and sort the result by cid |
| Addresses.MacReadsBack | components/daemon/src/lib.rs:20-22 | the MAC text reads back as 52:54:00:6d:59 and the cid |
| Addresses.IpReadsBack | components/daemon/src/lib.rs:24-26 | the address text reads back as 10.59.0 and the cid |
| Addresses.AddressesInjective | components/daemon/src/lib.rs:16-26 | different cids have different ports, MACs and addresses, and no space's port is the router's |
| Nft.RenderNft | components/daemon/src/render.rs:105-170 | fails exactly when some space's cid exceeds 255, naming the first one, and otherwise writes the ruleset of the spaces sorted by cid |
| Nft.SpaceRules | components/daemon/src/render.rs:141-152 | a space's two rules accept its honest IPv4 and ARP frames and decide nothing else |
| Nft.RulesetMeaning | components/daemon/src/render.rs:105-170 | the generated text, read and evaluated first-match, accepts a frame exactly when it is on another bridge, from the router's port, or from a space's port with that space's MAC and IPv4 or ARP source; for any list in any order |
| Nft.HostIsShielded | components/daemon/src/render.rs:163-168 | the second chain of the same text drops every frame from the bridge of the spaces to the host, and nothing else |
| Nft.NoSharedSource | components/daemon/src/render.rs:141-152 | frames accepted from two different space ports never share a source MAC or address |
| Store.LeastFree | components/daemon/src/store.rs:174-192 | the cid found is free and every smaller one is not; none is found only if none is free |
| Store.FullAt252 | components/daemon/src/store.rs:174-192 | with no foreign ports allocation fails if and only if exactly 252 spaces exist |
| Store.CreateOutcome | components/daemon/src/store.rs:88-134 | when a space is created, that it gets the least free cid and its uid, and everything else as asked, next to the spaces that were there |
| Store.CreateRefused | components/daemon/src/store.rs:97-128 | which refusal is given otherwise, in the order of the checks |
| Store.RemoveOutcome | components/daemon/src/store.rs:158-168 | a space leaves the list exactly when its directory is gone, and its file exactly when the removal got that far; no other changes |
| Store.DigestSaved | components/daemon/src/store.rs:148-156 | a new digest reaches memory in any case and the file if the write succeeds, and nothing else changes |
| Store.CleanSaved | components/daemon/src/store.rs:137-145 | the same for how a stop went |
| Store.StoreRun | components/daemon/src/store.rs:51-168 | over all sequences from the empty store, failed writes and restarts included: ids strictly sorted and never reserved, cids distinct in 3..255 without 9, uid 70000 + cid |
| Store.ReloadGivesSameList | components/daemon/src/store.rs:51-78 | reloading gives the same list in any directory order exactly when the files agree with memory, so after every successful operation |
| Store.StoreFeedsBroker | components/daemon/src/net.rs:79-91 | the registry rendered of any reachable store is accepted by the broker, which finds exactly the stored space of each cid |
| Store.Store.Load | components/daemon/src/store.rs:51-78 | reads all configs in listing order and sorts them; one unreadable config fails it |
| Store.Store.AllocateCid | components/daemon/src/store.rs:174-192 | the nested loop returns the least free cid |
| Store.Store.CreateSpace | components/daemon/src/store.rs:88-134 | checks in the code's order, then adds the space to disk and list |
| Store.Store.SetCleanShutdown | components/daemon/src/store.rs:137-145 | records how the last stop went, memory first |
| Store.Store.SaveDigest | components/daemon/src/store.rs:148-156 | records a digest, memory first |
| Store.Store.RemoveSpace | components/daemon/src/store.rs:158-168 | removes directory and entry, or fails with the entry kept |
| LifecycleProofs.StepKeepsInv | components/daemon/src/ops.rs:291-1164 | every operation and every outside event, whatever fails, keeps distinct cids, owned links and recorded processes |
| LifecycleProofs.LinksBelongToSpaces | components/daemon/src/ops.rs:695-704 | on every sequence each link the daemon made belongs to a stored space |
| LifecycleProofs.DestroyFreesCid | components/daemon/src/ops.rs:1141-1153 | at any moment of any run, after a destroy that answers Ok its cid is allocatable again |
| LifecycleProofs.StartUsesFreshLink | components/daemon/src/ops.rs:695-704 | at any moment of any run a process is spawned only once what was left under the cid is removed, and a space that starts gets a link younger than every link the daemon made before |
| LifecycleProofs.PassphraseRule | components/daemon/src/ops.rs:859-868 | start, resets and update do something only with a passphrase that fits the encryption |
| ImageProofs.CreateMakesSpace | components/daemon/src/ops.rs:291-398 | Ok means the config is recorded and the images are built on the recorded template, encrypted as asked |
| ImageProofs.CreateAllOrNothing | components/daemon/src/ops.rs:383-391 | a failed create leaves the list of spaces as it was and no image, provided its rollback works |
| LifecycleProofs.StopEndsSpace | components/daemon/src/ops.rs:870-906 | Ok means pid file and link are gone, and the recorded process dead unless an unowned one withstood the kill |
| Outcomes.StopOutcome | components/daemon/src/ops.rs:870-906 | Ok if and only if the space is stored and seen, its link exists and deletion and write work; not stored and not seen are refused without effect, anything else is internal |
| Outcomes.StopEffects | components/daemon/src/ops.rs:870-906 | what a stop does that is not refused, whatever fails: exactly the recorded process dies, and exactly the space's link goes |
| Outcomes.StopWorks | components/daemon/src/ops.rs:870-906 | at any moment of any run a stop of a running, held space with its link there answers Ok and ends process and link, if the host does what it is asked |
| Outcomes.Refusals | components/daemon/src/ops.rs:859-977 | which of start, resets and update is refused how before it does anything |
| Outcomes.StartOutcome | components/daemon/src/ops.rs:639-838 | when a start answers Ok, and which code otherwise |
| Outcomes.StartEffects | components/daemon/src/ops.rs:639-838 | Ok means one process spawned, recorded and held on a link of its own, and nothing else changed |
| Outcomes.FailedStart | components/daemon/src/ops.rs:700-838 | a start that fails leaves no process more alive, no file changed, and no link if it could be taken down |
| Outcomes.FailedStartRecords | components/daemon/src/ops.rs:737-838 | what it leaves of the records of processes: nothing of a QEMU that died, otherwise what was there |
| Outcomes.ResetSystemOutcome | components/daemon/src/ops.rs:979-1017 | when a reset of the system answers Ok |
| Outcomes.ResetAllOutcome | components/daemon/src/ops.rs:1019-1057 | when a reset of everything does |
| Outcomes.UpdateOutcome | components/daemon/src/ops.rs:1060-1126 | when an update does, which code otherwise, and that Ok records `latest` |
| Outcomes.CreateOutcome | components/daemon/src/ops.rs:291-398 | when a create does, and which code otherwise |
| Outcomes.DestroyOutcome | components/daemon/src/ops.rs:1128-1164 | when a destroy does, and which code otherwise |
| Outcomes.OthersRunOn | components/daemon/src/ops.rs:291-1164 | at any moment of any run no operation on one space touches the process, the records or the link of another, whatever fails |
| Outcomes.WholeLife | components/daemon/src/ops.rs:291-1164 | from any moment of any run a new space can be created, started, stopped and destroyed, each with Ok, leaving configs, processes, links and cids as they were |
| LifecycleProofs.DestroyRemovesSpace | components/daemon/src/ops.rs:1128-1164 | Ok means nothing of the space is left and no other space changed |
| ImageProofs.DigestFollowsOverlay | components/daemon/src/ops.rs:1060-1126 | the recorded digest changes only to one the overlay is already built on |
| ImageProofs.DigestHistory | components/daemon/src/ops.rs:1060-1126 | along any run a digest that changed was recorded by a successful update, at a moment when the overlay was already on it |
| ImageProofs.RecordStep | components/daemon/src/ops.rs:979-1126 | a step takes an intact overlay off the recorded image if and only if it is an update that rewrites it on another image and does not record that, or a create whose rollback leaves its config over an older overlay; no reset does, whatever fails |
| ImageProofs.RecordRun | components/daemon/src/ops.rs:979-1126 | along any run the overlay is on the recorded image at every moment if and only if no step is one of these |
| ImageProofs.MismatchHistory | components/daemon/src/ops.rs:979-1126 | after any run a mismatch means that one of these steps occurred and that no create, reset or update to another image has succeeded since |
| ImageProofs.SettledIsOnRecord | components/daemon/src/ops.rs:979-1126 | an Ok of a create, of a reset or of an update to another image puts the overlay on the recorded image, whatever it was before |
| ImageProofs.ResetRestores | components/daemon/src/ops.rs:979-1017 | a reset of the system that answers Ok puts the overlay back on the recorded image |
| ImageProofs.ResetAllRestores | components/daemon/src/ops.rs:1019-1057 | so does a reset of everything, which also renews the data volume |
| ImageProofs.UpdateRestoresIff | components/daemon/src/ops.rs:1060-1126 | an update that answers Ok leaves overlay and digest equal if and only if `latest` was a new image or they were equal before |
| ImageProofs.RetryCompletesUpdate | components/daemon/src/ops.rs:1095-1117 | after a failed update, and then any run that does not create, update or destroy that space, repeating the update with the same `latest` puts the overlay and the digest on the new image |
| ImageProofs.UpdateCanLeaveMismatch | components/daemon/src/ops.rs:1069-1076 | a history in which an update says Ok over an overlay of another image |
| ImageProofs.DataUntouched | components/daemon/src/ops.rs:979-1126 | neither a system reset nor an update touches a data volume, whatever fails |
| ImageProofs.LiveImagesUntouched | components/daemon/src/ops.rs:969-977 | no step rewrites or removes an image of a space whose recorded QEMU is alive |
| ImageProofs.RunningImagesStay | components/daemon/src/ops.rs:969-977 | over any run during which the recorded QEMU lives, the images of its space stay exactly as they were |
| ImageProofs.CreateKindsIff | components/daemon/src/ops.rs:302-391 | a create that answers Ok makes images of the right kind if and only if it makes a data volume too, or none of the other kind was left by an earlier space of that name |
| ImageProofs.KindsStep | components/daemon/src/ops.rs:302-391 | a step ends the agreement of a space's intact images with its config if and only if it is a create that leaves its config over a left overlay or data volume of the other kind, which it neither rewrites nor removes |
| ImageProofs.EncryptionAsRecorded | components/daemon/src/ops.rs:302-309 | along any run each intact image is encrypted exactly as its config says, at every moment, if and only if no create does that |
| ImageProofs.UntornRunsAreRight | components/daemon/src/store.rs:158-168 | so it holds on every run in which no removal loses a config and leaves the files |
| ImageProofs.LeftFilesBreakEncryption | components/daemon/src/store.rs:158-168 | a history in which such left files break the claim |
| Publishing.OkPublishes | components/daemon/src/net.rs:79-94 | after a create or destroy that answers Ok, registry and rules list exactly the stored spaces |
| Publishing.AgreementStep | components/daemon/src/net.rs:79-94 | a step ends the agreement if and only if it is a create that fails after writing the registry, or whose rollback leaves the config, or a destroy that fails after losing the config |
| Publishing.AgreementLasts | components/daemon/src/net.rs:79-94 | along any run registry and rules list exactly the stored spaces, at every moment, if and only if no step is one of these |
| Publishing.FailedCreateMayStayListed | components/daemon/src/ops.rs:383-391 | a rolled-back create can stay in the registry file |
| Operations.Daemon.CreateVolumes | components/daemon/src/ops.rs:1320-1341 | overlay first, then the data volume, stopping at the first failure |
| Operations.Daemon.RebuildOverlay | components/daemon/src/ops.rs:991-1002 | rebuilds one overlay on a template |
| Operations.Daemon.RefreshNet | components/daemon/src/net.rs:79-94 | writes the registry, then applies the rules |
| Operations.Daemon.DelLink | components/daemon/src/net.rs:49-52 | deletes a link that exists, if `ip` works |
| Operations.Daemon.AddLink | components/daemon/src/net.rs:36-47 | makes a link, which may be left half made |
| Operations.Daemon.Kill | components/daemon/src/ops.rs:1193-1215 | kills by handle or by pid file and forgets the pid file |
| Operations.Daemon.Refused | components/daemon/src/ops.rs:859-977 | the order of the checks on an existing space |
| Operations.Daemon.CreateSpace | components/daemon/src/ops.rs:291-398 | performs the create step effect by effect, with its rollback |
| Operations.Daemon.StartSpace | components/daemon/src/ops.rs:639-838 | performs the start step up to the spawn, undoing the link on failure |
| Operations.Daemon.SpawnQemu | components/daemon/src/ops.rs:737-838 | spawns QEMU; one that dies takes its link and pid file along |
| Operations.Daemon.StopSpace | components/daemon/src/ops.rs:870-906 | performs the stop step: kill, link, mark |
| Operations.Daemon.ResetSystemOverlay | components/daemon/src/ops.rs:979-1017 | performs the reset of the system |
| Operations.Daemon.ResetAllVolumes | components/daemon/src/ops.rs:1019-1057 | performs the reset of both volumes |
| Operations.Daemon.UpdateSpaceImage | components/daemon/src/ops.rs:1060-1126 | performs the update: overlay before digest |
| Operations.Daemon.DestroySpace | components/daemon/src/ops.rs:1128-1164 | performs the destroy: link, directory, registry |
| Templates.StoredNeverChanges | components/daemon/src/ops.rs:528-546 | a step leaves a stored template as it is or deletes it as garbage |
| Templates.StoredForGood | components/daemon/src/ops.rs:528-567 | over every interleaving of builds a stored template stays, unchanged |
| Templates.ReadyStep | components/daemon/src/ops.rs:528-567 | while every `latest` and every build still to link its own names a stored template, a step ends that if and only if it prunes a template about to be linked |
| Templates.ReadyRun | components/daemon/src/ops.rs:528-567 | along any run that holds at every moment if and only if every prune spares the templates about to be linked |
| Templates.LatestStep | components/daemon/src/ops.rs:562-567 | a step leaves `latest` naming a missing template if and only if it links one that is gone |
| Templates.LatestRun | components/daemon/src/ops.rs:562-567 | along any run `latest` names stored templates at every moment if and only if no build does that |
| Templates.LatestWithoutPrune | components/daemon/src/ops.rs:562-567 | over every interleaving of builds `latest`, when present, names a stored template |
| Templates.LatestChanges | components/daemon/src/ops.rs:562-567 | `latest` of a profile changes exactly when a build takes the old link away or makes its own |
| Templates.BuildEnds | components/daemon/src/ops.rs:436-459 | a build ends when it fails to move or own its template, and when it has tried to link it |
| Templates.PruneHoldsBack | tools/prune-templates.sh:13-40 | a prune deletes nothing when a config is unreadable or spaces show no digest, and never what a config records |
| Templates.BuildPublishes | components/daemon/src/ops.rs:449-459 | an undisturbed build leaves its template stored, one found there as it was, and `latest` on it |
| Templates.LatestIsStored | components/daemon/src/ops.rs:562-567 | from the start, on every run whose prunes spare the templates about to be linked, `latest` names a stored one |
| Templates.ResolvedIsStored | components/daemon/src/ops.rs:1222-1277 | on those runs the digest that create or update resolves is `latest` if there is one, and stored; without `latest` create finds one if and only if the profile has a single template |
| Templates.LatestCanDangle | tools/prune-templates.sh:25-40 | a history in which a prune between settling and linking leaves `latest` naming nothing |
| Templates.BasedStep | tools/prune-templates.sh:13-40 | a step takes the template from under a space's overlay if and only if it prunes that template, or creates the space over an overlay left on a pruned one |
| Templates.BasedRun | tools/prune-templates.sh:13-40 | along any run no overlay loses its template, at any moment, if and only if no step does that |
| Templates.LostIsUnrecorded | tools/prune-templates.sh:13-40 | a prune takes an overlay's template only while the config still records another one and `latest` names another one too |
| Templates.NoSpaceLosesItsTemplate | tools/prune-templates.sh:13-40 | so no space loses its template on runs that prune only while every overlay is on the template its config records and create no space over a left overlay |
| Templates.RecordedTemplateStays | tools/prune-templates.sh:13-40 | and on every run the template that a config records stays as long as the config records it |
| Templates.UpdateCanLoseTemplate | components/daemon/src/ops.rs:1095-1117 | a history in which a build and a prune between an update's overlay and its digest take the template from under the space |
| Templates.Script.Prune | tools/prune-templates.sh:13-40 | the nested loops delete all garbage and nothing else, or nothing when dry, with an unreadable config, or with spaces but no digests, and report the size of all garbage either way |
| Templates.Script.PruneProfile | tools/prune-templates.sh:26-39 | the inner loop over one profile's template directories |
| Font.FindGlyph | components/label/src/font.rs:10-16 | binary search finds the glyph of a code if the table has one |
| Font.ShapeIs | components/label/src/font.rs:37-39 | the shape of a character is the one the table has for it, and that of the question mark if it has none |
| Font.BitOfRow | components/label/src/font.rs:52-63 | the pixels of a row are the highest bits of its two bytes read as one number |
| Font.DrawGlyph | components/label/src/font.rs:41-67 | the two loops paint exactly the set bits of the glyph that fall into the buffer |
| Font.DrawText | components/label/src/font.rs:69-91 | a pixel ends as the foreground exactly if it lies in the text box and its bit is set in the glyph of character (px-x)/10, every other is unchanged, all accesses in bounds |
| Font.FitTextFits | components/label/src/font.rs:23-34 | fitted text never exceeds the limit, has min(length, limit/10) characters, and is cut from the end, with dots when there is room for more than them |
| Shell.ValueReads | lib/profile/src/main.rs:71-73 | a quoted value reads back as the value under single-quote and backslash rules |
| Shell.KeyNamesDiffer | lib/profile/src/main.rs:26-67 | different variables have different names, indices included |
| Shell.ExportRoundTrip | lib/profile/src/main.rs:22-69 | evaluating the export performs exactly the intended assignments in order, to pairwise distinct variables |
| Shell.ListsRecovered | lib/profile/src/main.rs:31-67 | reading the counted variables back recovers the sources, blobs and files |
| Shell.ScalarsRecovered | lib/profile/src/main.rs:26-48 | every other field of the manifest is found in the variable named after it, numbers as numbers |
| Shell.JoinSplits | lib/profile/src/main.rs:29-31 | joined words without the separator are recovered by splitting |
| Shell.ExportEnv | lib/profile/src/main.rs:22-69 | the loops append exactly that text |
| Tails.TailRefinesFile | components/daemon/src/observe.rs:35-69 | the lines shown are a suffix of the last n lines of the file, and all of them if and only if the file fits the window or they and a line break before them do |
| Tails.LinesSplit | components/daemon/src/observe.rs:63-64 | what the lines are: the file is these lines, each followed by LF or CR LF, the last perhaps by nothing |
| Tails.LinesOfDecoded | components/daemon/src/observe.rs:63-64 | decoding the whole and taking lines is taking lines and decoding each, for any bytes |
| Tails.TailSanitized | components/daemon/src/observe.rs:35-70 | the seek, the drain, the lossy decoding of what is left, its lines and the loop over the last ones give those lines, each decoded and sanitized |
| Tails.Sanitize | components/daemon/src/observe.rs:73-78 | a sanitized line is the first so many characters other than control characters: the k-th of them comes k-th, up to the limit, and nothing else |
| Tails.TailReportIsLastReport | components/daemon/src/net.rs:283-320 | on any suffix of a text, behind replacement characters too, the parser returns what it returns on the whole text if the last opening mark is in it, and nothing otherwise |
| Tails.ReportIs | components/daemon/src/net.rs:293-320 | a report is found if and only if it gives, for each of the three labels, the trimmed rest of the last line that starts with it, among the lines between the last opening mark and the first closing mark after it |
| Tails.ReportExists | components/daemon/src/net.rs:293-320 | there is one if and only if a closing mark follows the last opening mark and each label starts some line between them |
| Tails.TrimIs | components/daemon/src/net.rs:306-312 | trimming cuts exactly the white space at both ends |
| Tails.ParseLastTunnelBlock | components/daemon/src/net.rs:293-320 | the loop over the block's lines computes the report, the last value of each field winning |
| LossyUtf8.DecodeLosesNothing | components/daemon/src/net.rs:289 | encoding the decoded text gives the bytes back if and only if they are UTF-8 |
| LossyUtf8.ReplacedPart | components/daemon/src/net.rs:289 | what is replaced at once is the longest part that some character could have begun with |
| LossyUtf8.DecodeOfEnd | components/daemon/src/net.rs:286-289 | decoding from any byte on gives at most three replacement characters and then an end of the decoded whole |
| LossyUtf8.AsciiFound | components/daemon/src/net.rs:297-299 | an ASCII mark stands in the decoded text if and only if its bytes stand in the file |
| Tails.ConsoleReport | components/daemon/src/net.rs:283-320 | the report found in the last `cap` bytes, decoded even where the cut went through a character, is the last report of the whole file if its opening mark is within those bytes, and none otherwise |
| Tails.TunnelStatus | components/daemon/src/net.rs:233-235 | performs that on the console file with its 64 KiB |
| Focus.UnknownIff | components/label/src/niri.rs:129-179 | focus is unknown if and only if no snapshot, focus change or focused opening has occurred |
| Focus.FocusIff | components/label/src/niri.rs:129-164 | the focus is on a window if and only if some event put it there and none since has taken it away; closing another window does not |
| Focus.WindowIff | components/label/src/niri.rs:129-156 | the map holds a window exactly as the last event about its id brought it |
| Focus.ShownIff | components/label/src/niri.rs:166-175 | a window is shown if and only if it is present and holds the focus |
| Focus.ShownIsPresent | components/label/src/niri.rs:166-175 | a reported window is in the map, under the id last named |
| Focus.ClosedStaysGone | components/label/src/niri.rs:150-155 | a closed id is neither focused nor reported until named focused again |
| Focus.SnapshotForgets | components/label/src/niri.rs:133-139 | after a snapshot nothing of the earlier history matters |
| Focus.FocusAndOpeningCommute | components/label/src/niri.rs:141-161 | a focus change and an opening of the same id commute |
| Focus.WindowMap.Apply | components/label/src/niri.rs:129-164 | performs the event on the map and the focus |
| Focus.WindowMap.Focused | components/label/src/niri.rs:166-175 | reports unknown, none or the window |

## Left out

- Calendar.CivilFollowsCalendar: the widths of `i64` and `u64` are not modelled; days near their ends would overflow in the code.
- ProxyBroker.ProcessesAreConserved: a proxy dropped because its socket never appeared is only counted; the code neither kills nor awaits it.
- Delivery.DoneOnceAndLast: a receiver that goes away, and the texts of transport errors, are not modelled.
- JsonRoundTrip.RoundTrip: a number that is not a 64-bit integer is its text here; that serde_json rounds it to a floating-point value, and refuses one out of range, is not modelled.
- Session.SessionRoundTrip: a read error or a timeout looks like the end of the connection.
- Session.RequestArrives: the typed parse of an admitted request is not modelled.
- Registry.RegistryAgreement: TOML is taken as structured rows; its text is not modelled.
- Nft.RulesetMeaning: the wording of the comments in the generated file is shortened.
- Store.ReloadGivesSameList: two failures of the same write are not told apart; a directory without a config file is only passed over.
- ImageProofs.RecordStep: an overlay that is missing or damaged is not called a mismatch.
- LifecycleProofs.StepKeepsInv: the cid of a new space is any allocatable one here; that the store chooses the least is in Store. Reading the store at the start of an operation is taken to succeed, since failing it refuses the operation before any effect. The pid-file write after a spawn is taken to succeed, a live recorded QEMU to be seen as running, and `link_exists` to tell the truth.
- LifecycleProofs.StopEndsSpace: a process that withstands `kill` and has no handle lives on unrecorded; what it does to the images then is not modelled.
- ImageProofs.EncryptionAsRecorded: passphrases themselves and secret files on disk are not modelled, only whether one was given.
- Templates.NoSpaceLosesItsTemplate: pruning is one step, building an overlay another; a directory that `rm` removes only in part counts as removed, and `qemu-img` is taken to fail without its backing file.
- Tails.TailRefinesFile: the file does not grow while it is read.
- Manager.Ui.HandleActionDone: dialogs and status texts are left out; a wrong passphrase is only told apart from other failures.
- GTK widgets, Wayland surfaces, CSS and row formatting: user interface.
- vsock and Unix sockets, byte copying between threads, sleeps: only their success or failure appears.
- `describe`, `list`, `profiles`, `net-status` and the agent calls to the guest: they report and change nothing modelled here.
- QEMU and sandbox command lines, manifest field checks, colour parsing, host network and install scripts: they would only add easy members.
