# A model of the resident GEM AES

The repository runs GEM's application environment services on ELKS, a 16-bit system: one server process holds the
windows, menus, message queues and the screen lock of up to six client channels in fixed arrays, and threads lists
through them by index. This project models its hardest parts in Dafny and proves what they promise.

* **Windows** (`Geometry`, `Pieces`, `Budget`, `Links`, `RectPool`, `ZOrder`, `Scene`, `Books`, `WorkAreas`, `WindowCalls`,
  `WindowManager`). Open windows form a
  stack. Each has a list of visible pieces, cut from a pool of 120 nodes around the frames above it. `Pieces` says as
  values what cutting is and proves it exact, `RectPool` does it in place on linked nodes, `Books` is the state as
  clients see it, and the class `Windows` is the manager. Its operations are proved against `Books`: exactly when they
  succeed, that a failure changes nothing, and exactly when everybody who gains pixels is told to redraw them.
* **Parked requests and the screen lock** (`Parking`, `Mail`, `ScreenLock`, `Requests`, `Departure`, `Protocol`, `Promises` as
  values, `Pending`, `Queues`, `Exchange` in place). A call that cannot finish is parked; readers, writers, contenders for
  the lock and finished replies wait in first-in first-out lists. `Protocol.Act` is one step of any client, of the input
  tick or of the socket server; the methods of the class `Exchange` are those steps on arrays. `Transfers`, `Nesting` and
  `Steps` say what each step does in plain terms, byte by byte and level by level.
* **Object trees** (`Forest`, `ObjectTree`, `TreeWalk`). The last child of an object links back to its parent. Adding,
  deleting, moving, drawing and finding objects are proved against lists of children and short recursive definitions.
* **Resources** (`ResourceFormat`, `Relocation`, `Resource`, `LoadedFields`, `Loader`). A file is checked as a whole, then seven tables are
  relocated in place. The image as loaded is compared with the file byte by byte.
* **Menus** (`MenuItems`, `MenuSteps`, `MenuRuns`, `Menu`). One input sample at a time opens, searches, switches and closes pull-down
  menus; highlighting is done in the application's own objects and must be undone.
* **Arithmetic and text** (`WordMath`, `Scales`, `Calendar`, `WildMatch`). Products, quotients and scales by shifting 16-bit
  words, packed dates, and two matchers of file patterns.

Where the source updates records in place the model does too: classes over arrays, with the abstract value as a
function of the fields, and methods whose contracts equate the new value with a function of the old one. `hide`
statements only keep proofs fast.

What comes from outside is a parameter: the memory of clients, samples of the mouse and keyboard, whether drawing
succeeded, the bytes of a file, and the memory an allocation returns.

## Results on open questions

* WIND_OPEN, WF_TOP and the rest take a shadow of two pixels into account. Whether the grown frame still covers the
  frame depends on `Books.Shadowed`, which no guard asks for. It is always met on screens up to 32764 pixels wide and
  high (`Books.ModestRoomy`). `WindowManager.Windows.Open` tells the new window about its pixels exactly when it is met,
  and `Books.WidestScreenLosesDamage` gives an input where it is not.
* A work area is exactly what border and gadgets leave of its frame, for all frames and gadgets of a screen, exactly when
  a box is at most 16384 pixels high (`WorkAreas.WorkAreasExact`); the frames accepted are exactly the usable ones exactly
  when it is at most 10922 (`WorkAreas.FramesExact`). Above, sums of borders wrap around in a word.
* WF_TOP skips its redraw for a window that is not in several pieces, but a window half covered is one piece
  (`Books.OnePieceMayHideMore`). `WindowManager.Windows.SetTop` says exactly when every gain is told: the window was in
  several pieces and its frame is shadowed, or no window above it lay over its work area.
* OBJC_ADD does not check whether the parent lies in the child's own subtree. `ObjectTree.Objects.AddChild`: a valid tree
  stays valid exactly when it does not.
* The window manager's scale is exact for all values exactly when the divisor is at most 21846
  (`Scales.WindowScaleExact`).
* Loading a resource draws a rule over the text of a disabled string between dashes, and nothing checks that the text
  is not inside a table or the header. `Resource.StrayedIsLoaded` gives an image that is accepted and has a bitmap
  overwritten; `Relocation.RelocatesAll` proves the relocation right for every image whose disabled strings keep clear
  (`Relocation.RulesApart`).

## Model

| member | source | states |
|---|---|---|
| Geometry.Intersect | src/aes/gem_window_resident.c:175-207 | The clipped rectangle holds exactly the pixels of both, and is the zero rectangle or has proper edges. |
| Geometry.EncloseKeeps | src/aes/gem_window_resident.c:210-243 | Within a common rectangle a union can be formed, stays within it and loses no pixel of either part. |
| Pieces.SplitExact | src/aes/gem_window_resident.c:649-726 | Splitting a rectangle around an occluder gives at most four solid, pairwise disjoint pieces that hold precisely the uncovered pixels. |
| Pieces.CutExact | src/aes/gem_window_resident.c:729-767 | Cutting a whole list around one occluder keeps it disjoint and removes exactly the occluder's pixels, as long as the pool lasts. |
| Pieces.CutAllExact | src/aes/gem_window_resident.c:769-818 | The same around all windows above. |
| Pieces.LayersExact | src/aes/gem_window_resident.c:821-841 | When the pool suffices for all lists, list i holds exactly the pixels of its base under none of the rectangles above, each once. |
| Pieces.WalkExact | src/aes/gem_window_resident.c:1141-1159 | Clipping disjoint pieces to the work area in turn tiles the visible work area. |
| Budget.CutPeak | src/aes/gem_window_resident.c:649-767 | Cutting around one occluder succeeds exactly when the nodes in use at any moment suffice, and is then the cut from an endless pool. |
| Budget.LayersPeak | src/aes/gem_window_resident.c:821-841 | All lists of a stack can be built exactly when their peak of nodes is in the pool, and each is then what an endless pool gives. |
| Budget.FitsPeak | src/aes/gem_window_resident.c:562-574 | A rebuild succeeds exactly when it never needs more than 120 nodes at once. |
| RectPool.Pool.CutOut | src/aes/gem_window_resident.c:649-726 | In place: the node gives way to nodes with the pieces of the split, or nothing happens when the free nodes do not suffice; no node is lost or shared, and no other node changes. |
| RectPool.Pool.BreakList | src/aes/gem_window_resident.c:729-767 | The list, success and number of free nodes left are those of the exact cut, also when the pool runs out on the way; other lists are untouched. |
| RectPool.Pool.ReleaseList | src/aes/gem_window_resident.c:585-599 | All nodes of the list are free again, together with those that were; no other node changes. |
| RectPool.PartitionSwap | src/aes/gem_window_resident.c:562-613 | Lists and free nodes together go on holding every one of the 120 nodes exactly once when one list trades nodes with the pool. |
| Scene.VisiblePieces | src/aes/gem_window_resident.c:821-841 | After a rebuild with room enough, a window's list tiles the pixels whose topmost window it is, and the root's list what the windows leave of its work area. |
| Scene.RedrawsCover | src/aes/gem_window_resident.c:843-967 | Every visible dirty pixel of a window's work area lies in a redraw message to that window. |
| Scene.RedrawsServe | src/aes/gem_window_resident.c:942-967 | Every message goes to a window of the stack and asks for dirty pixels of its work area only. |
| Scene.RedrawsOnce | src/aes/gem_window_resident.c:942-967 | No window gets two messages, and there are never more messages than windows. |
| Scene.GainsInsideFrames | src/aes/gem_window_resident.c:894-913 | When one window alone is opened, closed, moved or restacked, nobody gains a pixel outside its old and new frame: marking those two dirty is enough. |
| Books.GrownCovers | src/aes/gem_window_resident.c:894-913 | The frame grown by its shadow covers the frame exactly when size and room still fit a word; otherwise it is empty. |
| Books.LaidUnique | src/aes/gem_window_resident.c:821-841 | Frames and z-order determine every piece sequence, also after an overflow, so putting them back and rebuilding restores all of it. |
| Books.ExposuresTold | src/aes/gem_window_resident.c:894-967 | The exposure theorem for one changed window: if the dirty area covers its old and new frame and the pool suffices, every newly owned pixel of any work area is in a message to its owner. |
| Books.OpenGains | src/aes/gem_window_resident.c:1056-1096 | Opening a window gains it exactly the part of its work area inside its frame, and nobody else anything. |
| Books.WidestScreenLosesDamage | src/aes/gem_window_resident.c:894-913 | On a screen 32767 pixels wide, opening a narrow window at x = -1 leaves its new pixels untold. |
| Books.ModestRoomy | src/aes/gem_window_resident.c:321-336 | On screens up to 32764 pixels the redraw conditions of all operations hold for every legal frame. |
| Books.OnePieceMayHideMore | src/aes/gem_window_resident.c:810-816 | Two frames for which WF_TOP exposes pixels of a window that is a single piece. |
| Books.RaiseGains | src/aes/gem_window_resident.c:1273-1304 | Raising a window lets somebody gain a pixel exactly when a window above lies over part of its work area. |
| Books.RaisedGainsHidden | src/aes/gem_window_resident.c:1273-1304 | The same for the manager's records before and after WF_TOP. |
| Books.PixelListed | src/aes/gem_window_resident.c:1384-1407 | A pixel lies in the list of the handle WIND_FIND's search returns and in no other; no list holds a pixel twice. |
| Books.WalkedOwned | src/aes/gem_window_resident.c:1141-1159 | WF_FIRSTXYWH and WF_NEXTXYWH show a client exactly the pixels of its work area that no other window hides, each once. |
| Books.DepartureTold | src/aes/gem_window_resident.c:1662-1708 | After the windows of a dead client went, every pixel another window gained is in a message to it. |
| Books.DamageIsTold | src/aes/gem_window_resident.c:973-990 | Every pixel of a damaged rectangle that shows a work area is in a message to its window. |
| Books.MessagesThrifty | src/aes/gem_window_resident.c:942-967 | Messages are fewer than the twelve entries of the array, one at most for each open window, for dirty pixels of its work area only. |
| ZOrder.OrderedAppend | src/aes/gem_window_resident.c:451-471 | Hooking a window in at the tail keeps the sibling list, its ends and the top right. |
| ZOrder.UnlinkOrdered | src/aes/gem_window_resident.c:474-510 | Unhooking a window from anywhere in the stack keeps them right. |
| WorkAreas.WorkAreaIs | src/aes/gem_window_resident.c:276-319 | A legal frame's work area holds exactly the pixels outside the border and the bands of title, information line, vertical and horizontal bars. |
| WorkAreas.WorkAreasExact | src/aes/gem_window_resident.c:276-319 | So it is for all frames and gadgets exactly when a box is at most 16384 pixels high. |
| WorkAreas.FramesExact | src/aes/gem_window_resident.c:321-336 | Exactly the frames on the screen, below the menu bar and with a pixel to work in are accepted, exactly when a box is at most 10922 pixels high. |
| WorkAreas.OpenPlaced | src/aes/gem_window_resident.c:276-336 | In every state of the manager the work areas of all open windows are in the right place. |
| WindowCalls.OpenMeans | src/aes/gem_window_resident.c:1056-1096 | WIND_OPEN is for the owner of a closed window, with an accepted frame and pieces enough. |
| WindowCalls.MoveMeans | src/aes/gem_window_resident.c:1222-1271 | WF_CXYWH and WF_SIZTOP are for the owner of an open one. |
| WindowCalls.TopMeans | src/aes/gem_window_resident.c:1273-1304 | So is WF_TOP. |
| WindowCalls.CreateMeans | src/aes/gem_window_resident.c:1016-1054 | WIND_CREATE takes no frame, or a usable one. |
| WindowCalls.OpenedIs | src/aes/gem_window_resident.c:1056-1096 | An opened window is on top with its frame, also as previous one; nothing else of it changed, and no other window. |
| WindowCalls.MovedIs | src/aes/gem_window_resident.c:1222-1271 | A moved window has its new frame and the old one as previous. |
| WindowCalls.ClosedIs | src/aes/gem_window_resident.c:1098-1124 | A closed window keeps its last frame as previous and is still its client's. |
| WindowCalls.CreatedIs | src/aes/gem_window_resident.c:1016-1054 | A new window is its client's, closed, with the gadgets and full size asked for. |
| WindowCalls.RootWorkIs | src/aes/gem_window_resident.c:1491-1541 | The root's work area is the screen below the menu bar. |
| WindowCalls.LeftMeans | src/aes/gem_window_resident.c:1662-1708 | A dead client's windows are cleared and out of the order, all others as they were, and the root is the system's again. |
| WindowCalls.StayingOrder | src/aes/gem_window_resident.c:1662-1708 | The windows that stay keep their order. |
| WindowCalls.ConfiguredIs | src/aes/gem_window_resident.c:1491-1541 | A manager just configured has the root and nothing else. |
| WindowManager.Effects.FrameDirty | src/aes/gem_window_resident.c:869-913 | The dirty area grows by the frame and its shadow as far as the screen reaches. |
| WindowManager.Effects.Append | src/aes/gem_window_resident.c:915-939 | A message is kept while there is room for it and dropped afterwards. |
| WindowManager.Windows.constructor | src/aes/gem_window_resident.c:1409-1489 | The manager starts with no handle in use and all invariants in place. |
| WindowManager.Windows.TreeAdd | src/aes/gem_window_resident.c:451-471 | The z-order gets the window on top; frames stay as they are. |
| WindowManager.Windows.TreeDelete | src/aes/gem_window_resident.c:474-510 | The z-order loses the window, if it has it, and keeps the order of the rest. |
| WindowManager.Windows.TreeTop | src/aes/gem_window_resident.c:512-521 | A window of the stack moves to the top; for any other nothing changes. |
| WindowManager.Windows.RestoreOrder | src/aes/gem_window_resident.c:543-560 | Writing the saved links back restores the saved z-order whatever happened in between. |
| WindowManager.Windows.BuildOneList | src/aes/gem_window_resident.c:769-818 | One window's list is its layer; the lists of all others stay, overflow is noted, and the BROKEN bit says whether there are several pieces. |
| WindowManager.Windows.Rebuild | src/aes/gem_window_resident.c:821-841 | Every list is what frames and z-order give rise to, the pool stays partitioned, and the result says whether it sufficed. |
| WindowManager.Windows.VisibleUnion | src/aes/gem_window_resident.c:843-856 | The rectangle around a window's pieces, or the zero rectangle when a union cannot be formed. |
| WindowManager.Windows.RedrawOne | src/aes/gem_window_resident.c:942-967 | One window gets at most one message, for the part of the dirty area in its work area and within its pieces' bounds. |
| WindowManager.Windows.Redraw | src/aes/gem_window_resident.c:942-967 | With room for one message a window the messages are those the dirty area calls for, bottom window first, and none is dropped. |
| WindowManager.Windows.Open | src/aes/gem_window_resident.c:1056-1096 | Exactly when it succeeds; a failure leaves frames, z-order, top and every piece as they were; the work area is where frame and gadgets put it; messages are bounded and only for dirty work area; the new window's pixels are told exactly when its frame is shadowed. |
| WindowManager.Windows.SetCurrent | src/aes/gem_window_resident.c:1222-1271 | WF_CXYWH and WF_SIZTOP: exactly when they succeed, all or nothing, the work area in its place, bounded messages, and every gained pixel told if both frames are shadowed. |
| WindowManager.Windows.SetTop | src/aes/gem_window_resident.c:1273-1304 | WF_TOP: exactly when it succeeds, all or nothing, bounded messages, and exactly when every gained pixel is told. |
| WindowManager.Windows.Close | src/aes/gem_window_resident.c:1098-1124 | The window leaves the stack; messages are bounded; every gained pixel is told when the ignored rebuild had room. |
| WindowManager.Windows.Create | src/aes/gem_window_resident.c:1016-1054 | The first unused handle, or none when the frame is illegal or all are used; nothing else changes. |
| WindowManager.Windows.Delete | src/aes/gem_window_resident.c:1126-1139 | Only the owner can delete, and only a closed window; its record is cleared and nothing else changes. |
| WindowManager.Windows.Find | src/aes/gem_window_resident.c:1384-1407 | The topmost window at a pixel of the screen. |
| WindowManager.Windows.FirstOwned | src/aes/gem_window_resident.c:1161-1220 | The walk starts over: its first rectangle, followed by what is ahead, is the whole walk; the zero rectangle ends it. |
| WindowManager.Windows.NextOwned | src/aes/gem_window_resident.c:1141-1159 | Each call gives the next rectangle of the walk, none twice and none left out, and changes nothing else. |
| WindowManager.Windows.DetachClient | src/aes/gem_window_resident.c:1662-1708 | All windows of the client are gone and nothing else happened to the records; messages are bounded; every gained pixel is told when the ignored rebuild had room. |
| WindowManager.Windows.Configure | src/aes/gem_window_resident.c:1491-1541 | Usable metrics set the manager up with the root only, unusable ones change nothing. |
| WindowManager.Windows.Damage | src/aes/gem_window_resident.c:973-990 | What of the rectangle is in the root's work area gets repainted: every pixel shown there is told, by bounded messages. |
| Parking.RefiledFiled | src/aes/gem_pending.c:73-142 | Moving a slot between lists keeps every slot on exactly the list its state calls for, and on no other. |
| Parking.ParkKeeps | src/aes/gem_pending.c:148-168 | Parking keeps lists, arrival order and the accounts of tickets right. |
| Parking.CompleteKeeps | src/aes/gem_pending.c:174-201 | So does finishing a request. |
| Parking.CancelKeeps | src/aes/gem_pending.c:203-208 | So does cancelling one: its ticket counts as cancelled, once. |
| Parking.TakeReadyKeeps | src/aes/gem_pending.c:210-224 | So does sending a reply: its ticket counts as answered, once, to the channel that asked. |
| Mail.AcceptConserves | src/aes/gem_pending.c:248-255 | What a queue accepted stays what it delivered followed by what it holds, and it never holds more than 128 bytes. |
| Mail.DeliverConserves | src/aes/gem_pending.c:257-272 | The same when bytes are delivered. |
| Mail.StepLists | src/aes/gem_pending.c:296-333 | One pass of the pump takes the head of one list to the end of the ready list and leaves all other lists alone. |
| Mail.PumpSettles | src/aes/gem_pending.c:296-333 | After six passes neither the oldest reader nor the oldest writer can move: the bound never stops the pump early. |
| Mail.PumpFirstCome | src/aes/gem_pending.c:296-333 | Readers finish in the order they came in, and so do writers. |
| Mail.PumpBytes | src/aes/gem_pending.c:296-333 | Delivered bytes fill the buffers of the readers served in order, accepted bytes are the buffers of the writers served, and no other memory changes. |
| ScreenLock.BeginKeeps | src/aes/gem_startup_resident.c:392-428 | Beginning is refused exactly when another channel owns the lock; owner, depths and the history of grants keep agreeing. |
| ScreenLock.EndKeeps | src/aes/gem_startup_resident.c:392-428 | Only the owner can end a level, and all keeps agreeing. |
| ScreenLock.BindKeeps | src/aes/gem_startup_resident.c:90-110 | Binding a channel's record to a new generation releases what the old client held. |
| ScreenLock.VacateKeeps | src/aes/gem_startup_resident.c:231-245 | So does the end of a client. |
| ScreenLock.ExclusiveStep | src/aes/gem_startup_resident.c:392-428 | At every moment of the history of grants at most one channel held the screen. |
| ScreenLock.BeginIs | src/aes/gem_startup_resident.c:392-428 | A bound client takes a level exactly when the lock is free or its own below 65535 levels. |
| ScreenLock.EndIs | src/aes/gem_startup_resident.c:392-428 | Exactly the owner can end a level, and the last one frees the lock. |
| ScreenLock.BindIs | src/aes/gem_startup_resident.c:90-110 | A record of an older generation is replaced, and what it held released. |
| Nesting.ActBegins | src/aes/gem_startup_resident.c:392-428 | WIND_UPDATE begin: granted while the lock is free or its own below level 65535, refused with 0 at that level, parked otherwise. |
| Nesting.ActBeginsInner | src/aes/gem_aes_resident.c:699-730 | The same for forms and trackers, which never wait. |
| Nesting.ActEndsOthers | src/aes/gem_startup_resident.c:392-428 | WIND_UPDATE end of a client that is not the owner is refused with 0. |
| Nesting.NestedRun | src/aes/gem_startup_resident.c:392-428 | After n begins the client keeps the lock until its n-th end, which hands it to the oldest contender or frees it. |
| Requests.ReadWriteCalm | src/aes/gem_aes_resident.c:1033-1077 | After any read or write all queues are settled: whoever is parked could not be served. |
| Requests.NotifyAllOrNone | src/aes/gem_aes_resident.c:614-678 | Window messages go to all addressees, whole and in order, or nothing at all changes. |
| Requests.NotifyCalm | src/aes/gem_aes_resident.c:669-676 | After them all queues are settled. |
| Transfers.TransferIs | src/aes/gem_aes_resident.c:1033-1077 | Which reads and writes are refused, done at once or parked; one done at once moves exactly the caller's bytes, or exactly the front of the queue to the caller's buffer, ahead of what the pump moves, and touches no other memory. |
| Transfers.ActTransfers | src/aes/gem_aes_resident.c:1033-1077 | The same for a client's step in any reachable state; a reply is owed exactly when the call was parked. |
| Transfers.ActReadsMessage | src/aes/gem_aes_tick.c:14-28 | EVNT_MESAG reads sixteen bytes from the front of the queue when they are there and fit, and else does nothing. |
| Transfers.ActFinishes | src/aes/gem_aes_tick.c:193-239 | A wait the tick finishes gets its sixteen bytes first, or fails with -1. |
| Transfers.PumpServes | src/aes/gem_pending.c:296-333 | The pump leaves a client alone or finishes its call with 1, once; only a read writes to memory, and only to its buffer. |
| Transfers.SettledStarved | src/aes/gem_pending.c:296-333 | A settled queue holds less than its oldest reader wants and has less room than its oldest writer needs. |
| Transfers.PassIs | src/aes/gem_pending.c:296-333 | One pass serves the oldest reader if it can, else the oldest writer if it can. |
| Transfers.PumpPasses | src/aes/gem_pending.c:296-333 | The pump is its passes one after the other. |
| Transfers.NotifySucceeds | src/aes/gem_aes_resident.c:614-678 | Window messages are sent exactly when drawing went well, every addressee is the client meant, and every queue has sixteen bytes of room for each. |
| Departure.DropDone | src/aes/gem_aes_resident.c:1080-1143 | After a client's end its slot is free and on no list, nobody waits on its queues, whoever did has one failure ready, and the order of everybody else is unchanged. |
| Departure.DropKeeps | src/aes/gem_aes_resident.c:1080-1143 | Slots, lists, queues and accounts stay in order. |
| Protocol.HandoverIs | src/aes/gem_aes_tick.c:31-70 | A free lock goes to the oldest contender at depth one, and only its request is finished; a lock in use stays where it is. |
| Protocol.ActSteady | src/server/gem_main.c:441-461 | Every step of a client, the tick or the server keeps slots, lists, queues, lock, histories and owed replies in order; a free lock has no contenders. |
| Protocol.RunSteady | src/server/gem_main.c:533-576 | So does every run of such steps. |
| Protocol.StartSteady | src/aes/gem_aes_resident.c:278-327 | And they are in order before any client has come. |
| Promises.ActCalm | src/aes/gem_pending.c:296-333 | No step but the end of a client leaves a parked request that could be served. |
| Promises.RunCalm | src/aes/gem_pending.c:296-333 | Nor does any run without the end of a client. |
| Promises.ActCancels | src/aes/gem_aes_resident.c:1933-1973 | Replies are never taken back, and a request is cancelled by nothing but the end of a client with that request open. |
| Promises.RunAnswers | src/server/gem_main.c:226-242 | Over any run in which the asking client does not end, a deferred request is open, or was answered exactly once and to its channel; never both and never neither. |
| Promises.EndHandsOn | src/aes/gem_startup_resident.c:392-428 | The owner's last WIND_UPDATE end hands the lock to the oldest contender at depth one with its reply ready and touches no other request; earlier ones only count down. |
| Promises.ActHandsOn | src/aes/gem_aes_tick.c:31-70 | However the owner gives the screen up, by its own call, by one made for it or by its end, the oldest contender has it next. |
| Steps.ActExits | src/aes/gem_aes_resident.c:1933-1973 | A client's end in full: its slot, queue and record are gone, calls waiting on its queue fail with -1, its lock goes to the oldest contender, and nothing else changes. |
| Steps.ActReplies | src/server/gem_main.c:226-242 | The oldest finished call is answered with its result under its own ticket, and its slot is free. |
| Steps.ActHolds | src/aes/gem_aes_resident.c:1630-1638 | A wait for the tick is parked on no list. |
| Steps.ActAttaches | src/aes/gem_aes_resident.c:919-973 | Clients arrive on free channels other than the AES's own. |
| Pending.Slots.Append | src/aes/gem_pending.c:80-95 | In place: the list gets the slot at its end, all other lists and all records stay. |
| Pending.Slots.Pop | src/aes/gem_pending.c:97-112 | The oldest slot leaves the list, or the list is empty. |
| Pending.Slots.Remove | src/aes/gem_pending.c:114-142 | A slot leaves the list wherever it stands; nothing happens when it is not there. |
| Pending.Slots.TakeReady | src/aes/gem_pending.c:210-224 | The oldest ready slot is freed and its result returned. |
| Queues.Queues.Enqueue | src/aes/gem_pending.c:248-255 | In place: the bytes join the end of that queue and of what it accepted; other queues stay. |
| Queues.Queues.Dequeue | src/aes/gem_pending.c:257-272 | In place: the first n bytes leave, the rest moves down, and they count as delivered. |
| Exchange.Exchange.QueueProgress | src/aes/gem_pending.c:296-333 | The pump on arrays does what six passes of the settling, first-come pump do to slots, lists, queues and memory. |
| Exchange.Exchange.MoveBytes | src/aes/gem_aes_resident.c:1033-1077 | APPL_READ and APPL_WRITE on arrays: refused, done at once and pumped, or parked, as the protocol says. |
| Exchange.Exchange.AttachClient | src/aes/gem_aes_resident.c:919-973 | APPL_INIT is the protocol's attaching step, so it keeps a steady state steady. |
| Exchange.Exchange.ReadOrWrite | src/aes/gem_aes_resident.c:1033-1077 | APPL_READ and APPL_WRITE with the server's owed-reply flag are the protocol's transfer step, with its answer. |
| Exchange.Exchange.MessageNow | src/aes/gem_aes_tick.c:14-28 | Reading a waiting message is the protocol's step. |
| Exchange.Exchange.HoldCall | src/aes/gem_aes_resident.c:1630-1638 | Parking a call only the tick can finish is the protocol's step. |
| Exchange.Exchange.FinishCall | src/aes/gem_aes_tick.c:193-239 | The tick's finishing of a parked wait is the protocol's step. |
| Exchange.Exchange.UpdateLock | src/aes/gem_startup_resident.c:392-428 | WIND_UPDATE on arrays, parking, hand-over and answer included, is the protocol's step. |
| Exchange.Exchange.InnerUpdate | src/aes/gem_aes_resident.c:699-730 | Locking on behalf of forms and trackers is the protocol's step. |
| Exchange.Exchange.UpdateProgress | src/aes/gem_aes_tick.c:31-70 | Passing the lock on in place, failing contenders whose client is gone. |
| Exchange.Exchange.ApplyEffects | src/aes/gem_aes_resident.c:614-678 | Room for all messages is reserved before the first is queued: the protocol's all-or-nothing step. |
| Exchange.Exchange.SendReply | src/server/gem_main.c:226-242 | Sending a reply takes the oldest ready one and clears the owed-reply flag. |
| Exchange.Exchange.DropChannel | src/aes/gem_aes_resident.c:1080-1143 | The sweep over slots in place does what DropDone describes. |
| Exchange.Exchange.ExitClient | src/aes/gem_aes_resident.c:1933-1973 | A client's end in place, hand-over of its lock included, is the protocol's step. |
| Forest.AddAcyclic | src/aes/gem_object_resident.c:404-434 | A new child makes no cycle exactly when the parent is outside the child's subtree. |
| Forest.FewerAcyclic | src/aes/gem_object_resident.c:438-478 | Taking children away cannot make one. |
| ObjectTree.Objects.Parent | src/aes/gem_object_resident.c:264-301 | Following the siblings to the end finds the parent, for every well threaded array. |
| ObjectTree.Objects.Previous | src/aes/gem_object_resident.c:333-361 | The sibling before an object, NIL for the first. |
| ObjectTree.Objects.Children | src/aes/gem_object_resident.c:365-401 | The number of children. |
| ObjectTree.Objects.AddChild | src/aes/gem_object_resident.c:404-434 | OBJC_ADD appends to the parent's children; a refused call changes nothing; the tree stays valid exactly when the parent is outside the child's subtree. |
| ObjectTree.Objects.Delete | src/aes/gem_object_resident.c:438-478 | OBJC_DELETE removes from the parent's children and keeps the tree valid; a refused call changes nothing. |
| ObjectTree.Objects.Order | src/aes/gem_object_resident.c:482-557 | OBJC_ORDER removes and inserts at the position, keeps the tree valid, and is refused exactly for bad objects and positions. |
| ObjectTree.UndoOrder | src/aes/gem_object_resident.c:404-557 | Deleting an object just added, and moving one back, restore the order of the siblings. |
| ObjectTree.InsertedIs | src/aes/gem_object_resident.c:482-557 | An inserted object is at its position, at the end for NIL, and the others keep their order. |
| TreeWalk.Every | src/aes/gem_object_resident.c:1526-1578 | The walk by gotos visits exactly the recursive preorder of unhidden objects down to the depth limit. |
| TreeWalk.PreorderSpots | src/aes/gem_object_resident.c:1526-1578 | Each visit has the coordinates OBJC_OFFSET gives for the object. |
| TreeWalk.PreorderReaches | src/aes/gem_object_resident.c:1526-1578 | The walk comes to exactly the objects that unhidden ancestors lead to within the depth limit. |
| TreeWalk.Offset | src/aes/gem_object_resident.c:304-330 | The place of an object is the wrapped sum of places up to its root; the step limit is never reached. |
| TreeWalk.Draw | src/aes/gem_object_resident.c:1580-1601 | OBJC_DRAW visits that preorder from any object, each where OBJC_OFFSET says it is. |
| TreeWalk.Find | src/aes/gem_object_resident.c:1616-1682 | OBJC_FIND equals the recursive search for the last unhidden child that holds the point; the step limit is never reached. |
| TreeWalk.HitIs | src/aes/gem_object_resident.c:1603-1613 | Where its edges fit a word an object is hit at exactly the pixels of its rectangle, unless hidden. |
| TreeWalk.LastHitIs | src/aes/gem_object_resident.c:1616-1682 | The child the search goes down to is hit and no later one is. |
| ResourceFormat.RecordIs | src/aes/gem_resource_resident.c:679-750 | Fixing a record sets each present address's segment, keeps every offset and other field, records text lengths, and touches no byte outside the record. |
| ResourceFormat.AllIs | src/aes/gem_resource_resident.c:641-750 | So for a whole table, record by record. |
| ResourceFormat.OneTable | src/aes/gem_resource_resident.c:207-260 | In an accepted header no byte belongs to two tables, nor to the header. |
| Relocation.TreesAre | src/aes/gem_resource_resident.c:652-677 | Relocating the trees shadows exactly the outlined boxes at their roots and changes nothing else in the objects. |
| Relocation.ObjectsAre | src/aes/gem_resource_resident.c:830-879 | Relocating the objects keeps links, types, flags and states, converts positions to pixels, and outside the table turns dividers into rules and does nothing else. |
| Relocation.Waiting | src/aes/gem_resource_resident.c:881-894 | Until its own pass a table is as it was in the file. |
| Relocation.RelocatesAll | src/aes/gem_resource_resident.c:881-894 | All passes together: every address has its segment set and its offset kept, links are unchanged, and only table fields and divider text differ from the file. |
| Resource.StrayedIsLoaded | src/aes/gem_resource_resident.c:830-854 | A concrete image that passes every check and whose bitmap is overwritten by the rule drawn over a string inside it. |
| Resource.TreesLead | src/aes/gem_rsc.c:179-293 | In a loaded image every tree number gives the address of an object record, the one the file named; numbers behind the last give none. |
| Resource.TextsLead | src/aes/gem_rsc.c:179-293 | A free string or image is found where the file had it, in the image's segment, and a missing one stays missing. |
| Resource.PartsLead | src/aes/gem_rsc.c:179-293 | Every other kind of number leads to the field the format puts it in, within the image, and numbers out of range lead nowhere. |
| LoadedFields.PixelsAre | src/aes/gem_resource_resident.c:777-813 | Columns and rows in pixels: characters times their size, 80 columns and 25 rows being the screen, plus a shift of up to 128 forward or 127 backward, modulo 65536. |
| LoadedFields.ObjectFields | src/aes/gem_resource_resident.c:856-879 | A loaded object word by word: links, type and flags of the file, a shadow for an outlined root, the segment in an address, and its geometry in pixels. |
| LoadedFields.DividerBytes | src/aes/gem_resource_resident.c:830-854 | Every byte of the text of a disabled string between dashes becomes 0x13. |
| LoadedFields.HeaderMeans | src/aes/gem_resource_resident.c:179-260 | Exactly when a header is accepted, in the record sizes of the format. |
| LoadedFields.HeaderOrder | src/aes/gem_rsc.c:130-154 | The header's words in the order of the file. |
| LoadedFields.SpecMeans | src/aes/gem_resource_resident.c:343-389 | Exactly what the check asks of an object's specification, by its type. |
| LoadedFields.RecordMeans | src/aes/gem_resource_resident.c:422-576 | Exactly what the check asks of all other records. |
| LoadedFields.AcceptedInside | src/aes/gem_resource_resident.c:579-592 | In an accepted file links and addresses of objects, texts and images stay inside the image. |
| Loader.MakeSpan | src/aes/gem_resource_resident.c:179-196 | Adding record by record accepts exactly the tables that end within the image, start behind the header and are word-aligned. |
| Loader.ValidateHeader | src/aes/gem_resource_resident.c:207-260 | Accepts exactly the headers whose tables fit and have no byte in common. |
| Loader.Loaded.InTable | src/aes/gem_resource_resident.c:301-313 | Finds exactly the addresses of records. |
| Loader.Loaded.ValidateBitmap | src/aes/gem_resource_resident.c:507-531 | Accepts a missing bitmap and exactly those whose rows all lie in the image. |
| Loader.Loaded.ValidateNested | src/aes/gem_resource_resident.c:579-592 | Accepts exactly the images all of whose records are sound. |
| Loader.Loaded.RelocateTrees | src/aes/gem_resource_resident.c:652-677 | In place, the loop does the trees' pass. |
| Loader.Loaded.FixPosition | src/aes/gem_resource_resident.c:777-813 | In place: columns times the character size by repeated addition, the screen size for 80 columns or 25 rows, and a signed pixel offset, wrapped. |
| Loader.Loaded.Relocate | src/aes/gem_resource_resident.c:881-894 | In place, the seven loops do the seven passes. |
| Loader.Loaded.Load | src/aes/gem_resource_resident.c:929-1013 | Succeeds exactly for a complete, accepted file and memory for it; the image is then the relocated file; a failed load leaves nothing loaded, and a load while loaded changes nothing. |
| Loader.Loaded.Free | src/aes/gem_resource_resident.c:1015-1026 | Nothing is loaded afterwards; it succeeds exactly when something was. |
| Loader.Loaded.Address | src/aes/gem_resource_resident.c:1045-1054 | RSRC_GADDR leads where the number says in a loaded image, and nowhere while none is loaded. |
| MenuItems.ListFind | src/aes/gem_menu_pull_resident.c:993-1056 | One pass over the list finds the next or previous enabled item, going round at the ends. |
| MenuItems.StepsInverse | src/aes/gem_menu_pull_resident.c:993-1056 | Next and previous are inverse, and lead to enabled items. |
| MenuItems.StepsGoRound | src/aes/gem_menu_pull_resident.c:993-1056 | Stepping goes through all enabled items cyclically. |
| MenuSteps.InputSensible | src/aes/gem_menu_pull_resident.c:1861-1907 | Every sample leaves at most a title and an enabled item of its menu highlighted, and what it picks is an enabled item. |
| MenuSteps.RunKeeps | src/aes/gem_menu_pull_resident.c:1861-1907 | Over every run of samples the pre-open state words change by the picks on the way and by nothing else: only in SELECTED, and only in titles. |
| MenuSteps.EffectsAre | src/aes/gem_menu_pull_resident.c:1259-1317 | The net effect of all picks on each state word. |
| MenuRuns.DragPicks | src/aes/gem_menu_pull_resident.c:1347-1398 | Pressed on a title, dragged off other titles and released on an enabled item, exactly that item is picked and the menu closes. |
| MenuRuns.DragLeaves | src/aes/gem_menu_pull_resident.c:1347-1398 | Released off everything, such a run closes the menu without a pick. |
| MenuRuns.DragLatches | src/aes/gem_menu_pull_resident.c:1347-1398 | Released on the title or in the box, it leaves the menu open. |
| MenuRuns.ClickPicks | src/aes/gem_menu_pull_resident.c:1347-1398 | In an open menu a press and release on one item pick it, on two different items pick nothing. |
| MenuRuns.ClickEndsOff | src/aes/gem_menu_pull_resident.c:1347-1398 | A click released off everything closes the menu exactly when it began on an item or off everything. |
| MenuRuns.CrossingSwitches | src/aes/gem_menu_pull_resident.c:1320-1344 | The pointer on another title takes the menu there and ends the drag. |
| MenuRuns.Hovers | src/aes/gem_menu_pull_resident.c:1347-1398 | Without the button the pointer moves the highlight, and closes a menu that is not latched when off everything. |
| MenuRuns.ClosedStays | src/aes/gem_menu_pull_resident.c:1861-1907 | While no menu is open only a press on a title opens one. |
| MenuRuns.FirstStep | src/aes/gem_menu_pull_resident.c:1058-1066 | From no highlight Down goes to the first enabled item and Up to the last. |
| MenuRuns.DownsEnter | src/aes/gem_menu_pull_resident.c:1400-1462 | Down n times and Enter pick the n-th enabled item on, going round. |
| MenuRuns.UpDown | src/aes/gem_menu_pull_resident.c:1400-1462 | Up undoes Down and Down undoes Up. |
| MenuRuns.LeftRight | src/aes/gem_menu_pull_resident.c:1400-1462 | Right and Left open the next and the previous enabled title with its first enabled item, going round. |
| MenuRuns.KeysOpen | src/aes/gem_menu_pull_resident.c:1400-1462 | F10, F1 and a shortcut letter open the first, the last and the lettered title with its first enabled item. |
| MenuRuns.KeysLeave | src/aes/gem_menu_pull_resident.c:1400-1462 | Escape and keys without a meaning close the menu without a pick. |
| MenuRuns.LetterPicks | src/aes/gem_menu_pull_resident.c:1126-1168 | A letter picks the first enabled item with it, on the Desk its first row or an accessory, or closes the menu. |
| MenuRuns.PickMeans | src/aes/gem_menu_pull_resident.c:1237-1317 | What a pick sends, on the Desk and elsewhere. |
| MenuRuns.FirstTouchedIs | src/aes/gem_menu_pull_resident.c:864-914 | The search under the pointer finds the first enabled object it touches. |
| MenuRuns.FirstLetterIs | src/aes/gem_menu_pull_resident.c:1076-1124 | The search for a letter finds the first enabled object with it. |
| MenuRuns.FirstAccessoryIs | src/aes/gem_menu_pull_resident.c:1126-1160 | The search for an accessory's letter finds the first one with it. |
| MenuRuns.TouchedIs | src/aes/gem_menu_pull_resident.c:446-456 | An object is touched at the pixels of its rectangle, unless disabled. |
| MenuRuns.InMenuIs | src/aes/gem_menu_pull_resident.c:930-937 | The pointer is in a menu at the pixels of its box. |
| MenuRuns.DeskMeans | src/aes/gem_menu_pull_resident.c:620-707 | The Desk's own rows are the application's first item, a disabled separator and the accessories. |
| Menu.Menu.SetCurrentItem | src/aes/gem_menu_pull_resident.c:967-989 | Moving the highlight keeps all other words as before the menu opened, and lets each covered word be put back. |
| Menu.Menu.BuildDesk | src/aes/gem_menu_pull_resident.c:620-707 | The Desk's own rows have the states of the application's first rows, a disabled separator and the accessories. |
| Menu.Menu.OpenTitle | src/aes/gem_menu_pull_resident.c:1171-1220 | Opening highlights the title and nothing else. |
| Menu.Menu.CloseMenu | src/aes/gem_menu_pull_resident.c:1259-1317 | Closing puts every highlighted word back; a pick leaves its title lit, or for an accessory unlit. |
| Menu.Menu.SwitchTitle | src/aes/gem_menu_pull_resident.c:1320-1344 | Switching puts the old menu back before it opens the new one. |
| Menu.Menu.MouseTracking | src/aes/gem_menu_pull_resident.c:1347-1398 | A pointer sample over an open menu does the step of the state machine and keeps all invariants. |
| Menu.Menu.TakeInput | src/aes/gem_menu_pull_resident.c:1861-1907 | So does any sample, keys and opening included. |
| Menu.Menu.TakeInputs | src/aes/gem_menu_pull_resident.c:1861-1907 | A run of samples does the run of the state machine; from closed to closed without a pick every state word is as it was. |
| WildMatch.WildMatch | src/desktop/gemdos_posix.c:239-268 | The matcher that keeps only the last star accepts exactly the names that match in the mathematical sense. |
| WildMatch.Wildcard | src/aes/gem_fsel_resident.c:195-218 | The recursive matcher accepts exactly the same pairs. |
| WildMatch.MatchesJoined | src/desktop/gemdos_posix.c:239-268 | A name matches exactly when it is the pattern with some text for every star and some character for every question mark. |
| WordMath.Multiply | src/bindings/gem_wordpair.c:79-99 | Sixteen shift-and-add steps give the exact product on all words. |
| WordMath.DivideByTen | src/bindings/gem_wordpair.c:109-145 | Exact quotient and remainder on all 32-bit values. |
| Scales.DivideWords | src/aes/gem_graf_resident.c:297-358 | The shift-and-subtract loop divides exactly, carries out of the remainder included. |
| Scales.ScaleThousand | src/aes/gem_graf_resident.c:297-358 | Exactly value * 1000 / divisor rounded down, 1000 from the divisor on. |
| Scales.ScaleWindow | src/aes/gem_window_resident.c:391-425 | Exact up to a divisor of 21846. |
| Scales.WindowScaleExact | src/aes/gem_window_resident.c:391-425 | The window manager's scale is exact for all values and multipliers exactly when the divisor is at most 21846. |
| Calendar.Unpack | src/desktop/gemdos_posix.c:478-543 | Succeeds exactly for valid fields, and gives their seconds, staying at the last 32-bit second beyond it. |
| Calendar.StatClock | src/desktop/gemdos_posix.c:596-650 | Subtracting years and months one by one finds the fields of a number of seconds. |
| Calendar.FieldsValid | src/desktop/gemdos_posix.c:596-650 | Those fields are a valid time that is that many seconds after 1970. |
| Calendar.FieldsOfSeconds | src/desktop/gemdos_posix.c:478-543 | Every valid time is the fields of its own seconds, 2100 not being a leap year. |
| Calendar.SecondsCivil | src/desktop/gemdos_posix.c:478-543 | Up to 2199 the seconds are those of the calendar in use, with its leap years and lengths of months. |
| Calendar.PackedRoundTrip | src/desktop/gemdos_posix.c:575-592 | Every valid packed time whose seconds fit 32 bits survives unpacking, reading back and packing. |
| Calendar.SecondsRoundTrip | src/desktop/gemdos_posix.c:575-592 | Every number of seconds from 1980 on survives packing and unpacking, rounded down to even. |

## Left out

- WindowManager.Windows.Close: says that gains are told only if the rebuild had room and the frame is shadowed; the call ignores the result of the rebuild, and after an overflow the truncated lists may leave gains untold.
- WindowManager.Windows.DetachClient: the same, with all frames shadowed.
- WindowManager.Windows.SetCurrent: says that gains are told only if both frames are shadowed and the screen is narrower than 32767; on wider screens it may or may not be so.
- WindowManager.Windows.Redraw: assumes nothing of the pieces' bounds; that the union of pieces can be formed is proved for legal frames.
- WindowManager.Windows.FirstOwned: the other WF_ selectors of WIND_GET only copy fields.
- Relocation.RelocatesAll: says nothing of images whose disabled strings have text inside a table or the header; the loader accepts them and may overwrite fields there.
- Promises.RunCalm: does not cover runs with the end of a client; waiters leave other queues then without a pump.
- Exchange.Exchange.HoldCall: why an event, form or tracker wait ends is not modelled; the tick may finish any of them at any time.
- TreeWalk.Every: for trees without cycles, as the bindings build them; the code's checks for malformed links do not come up then.
- TreeWalk.Find: the same.
- Loader.Loaded.ValidateNested: one loop goes through every table and asks the check of its kind; the source has a loop for each.
- Loader.Loaded.Load: file reads are one step, so short reads and I/O errors are an incomplete file; errno is not kept.
- RSRC_SADDR, RSRC_OBFIX and the address of the tree table: each writes or returns one field.
- Window names, information lines, slider values, gadgets, building and drawing of frames, and dragging by the mouse: these do not take part in visibility.
- All drawing, cursor, palette and font code.
- What rectangle effects of forms and trackers restore: they call Damage.
- Messages a menu sends to its application, accessory registration, and menu calls made while a menu is open.
- The boxes' geometry of menus is a parameter of the model: the chain checks that accept a menu tree are not.
- The event manager's keyboard ring, timers and click counting; form, alert, file selector, scrap, shell and configuration services.
- Sorting of the file list, programs' argument images, sockets, signals and processes.
- The slot of the source holds a window's fixed and rebuilt fields in one record; here they are two arrays, `slots` and `views`.
- A dirty area is an Option here, a rectangle with a flag there.
- Far pointers and segment registers: memory is a sequence of bytes per client.
