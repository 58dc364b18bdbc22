# Verification of the mail client's cores

This project models the parts of the mail client where several pieces of state have to
agree, and proves what they promise. It is checked with

    dafny verify dfyconfig.toml

Six cores are modelled.

1. **Render jobs** (`RenderEngine`, `RenderProtocol`, `RenderWidget`). A UI thread, an atomic
   `latest_id`, a job channel, a worker that collapses and abandons jobs, and an output
   channel, as a step relation in which every shared access is a step of its own. The proofs
   cover every interleaving of loads, paints, sends, checks, passes and polls.
2. **The folder tree** (`FolderTree`, `FolderOrder`, `FolderRows`). Flat `LIST` names become a
   tree, sorted at every level, flattened to rows with depths, and filtered in one linear scan.
   The linear forms are proved equal to the recursive ones.
3. **A mailbox and its cache** (`MailStore`, `MailMove`, `MailMoveShared`, `MailServer`,
   `MailCache`, `MailboxSync`, `SyncShortfalls`, `Watermark`, `Paging`, `Outbox`). The server's mailboxes, the
   client's tables, the sync rounds between them with the events in flight, new-mail detection,
   paging, and the retry queue. UID discipline follows section 2.3.1.1 of RFC 3501; the move
   fallback stands in for section 3.3 of RFC 6851.
4. **Painting** (`Geometry`, `DisplayList`, `Painter`). Replaying a display list with culling and
   a clip stack, over real coordinates, compared with replaying every command.
5. **The message list** (`ListSelection`, `ListView`). Selection and scroll over indices while
   rows are inserted and removed, with the message identities they must follow.
6. **Text** (`SearchQuery`, `Recipients`, `Emoji`). Loops over characters that have an inverse.

Where the source changes fields in place, a class has those fields and its methods are proved
against a function of the old state; what the source promises is proved about that function.

Some definitions carry *history variables*, which no operation of the program reads: the number
of loads, the URLs tried, the fate of each job and the width last painted
(`RenderProtocol.State`), the envelope each UID
was given to (`MailboxSync.Remote`), the UIDVALIDITY an event was made under
(`MailboxSync.Note`, except in a report, which carries it), the announced ranges
(`Watermark.World`), and the logs of commands, events and toasts (`Watermark.Relay`).

## What turned out not to hold

Each of these is stated with the exact condition under which the code does meet the promise.

- **The move fallback** is not always exact. Its comment says that it is, because the client
  never leaves a message flagged `\Deleted`. `MailMove.MoveIsExactWhenSafe` gives the condition:
  no other message of the source has the flag, and the moved one does not have it in another
  spelling, which `STORE` takes for the flag and `EXPUNGE` does not. A move onto the same
  mailbox must also not find the message flagged already.
  `MailMove.LowerCaseFlagDefeatsMove` is a concrete case. What other connections do between the
  three commands adds only what they mark, or unmark, themselves
  (`MailMoveShared.MoveAmidAnyone`, `MailMoveShared.MoveAmidIsExactIff`).
- **A move that left its message** is reported done all the same, and the cache drops a message
  that is still on the server: `SyncShortfalls.MoveThatStaysLeavesAGap`.
  `MailMoveShared.MovedMessageLeavesIff` says when a message leaves,
  `MailboxSync.MoveLeavesNoGapIff` when dropping it leaves no gap.
- **A renumbered mailbox** is wiped so that no row of the old numbering is left, but a bulk
  download runs on a second connection and is indexed without a look at the numbering it was
  read under. Rows of the old one stay when a download is indexed after a newer numbering was
  reported (`SyncShortfalls.LateDownloadLeavesOldRow`), and when it is indexed before its mailbox
  was ever reported, since a first report wipes nothing
  (`SyncShortfalls.EarlyDownloadLeavesOldRow`). `MailboxSync.InStepIffInTime` is the condition:
  indexing a download keeps a mailbox in step exactly when a numbering is stored for it that is
  not newer than the one the download's own `EXAMINE` answered.
- **A new-mail fetch** is documented as describing exactly the messages just reported as new. It
  asks for everything from the first of them on, so mail that arrives before it is run is told of
  too early (`Watermark.LaterArrivalIsToldEarly`), and again when its own range is fetched.
  `Watermark.AnswerIsTheRangeIff` is the condition.
- **Culling** relies on `Cmd::bounds`, documented as where a command paints. A rounded border is
  drawn by a pen centred on the box's edge and not inset, so an outline wider than two pixels
  paints outside its bounds. `DisplayList.OutlineStaysInBoundsIff` and `Painter.OutlineCullingIff`
  give the condition, and the latter a view in which the edge is lost.
- **Ctrl+A on an empty list** sets the anchor to a row that does not exist.
  `ListView.SelectAllIsInBoundsIff` is the condition and `ListView.SelectAllOnEmptyEscapes` a run
  in which a missing row ends up selected.
- **A folder row's key** is documented as the identity of its node. On a server whose delimiter
  is not the slash, a label may hold one and share its key with a path of labels, so that folding
  one folder folds another (`FolderRows.SlashLabelsShareAKey`). `FolderRows.LabelClashesIff` says
  which labels can clash, and `FolderRows.KeysTellRowsApart` that without slashes none do.
- **Page arithmetic** in 32 bits wraps: the pages tile the mailbox exactly when it holds at most
  2^32 - 50 messages (`Paging.PagesTileTheMailbox`).
- **Quoting a search term** keeps its spaces and quotes, but not its meaning: a quoted
  `is:unread` is still a filter (`SearchQuery.QuotedTermIsTextIff`).

## Boundaries that no run reaches

These hold for every input the program can pass; the exact condition is stated beside them.

- **`backoff_seconds`** would overflow for the least 64-bit count alone
  (`Outbox.BackoffIsMonotone`). Failures are counted up from nothing, so every run asks it for
  a count of at least one (`Outbox.BackoffNeverOverflows`).
- **Insert, then remove** would change the view for a negative offset
  (`ListView.InsertThenRemoveIsIdentity`). No run has one (`ListView.RunsStayInBounds`).
- **The flags column** would lose a flag that is empty or holds whitespace
  (`MailCache.FlagsColumnRoundTrip`). An IMAP flag is an atom and is neither.

## Model

| member | source | states |
|---|---|---|
| RenderEngine.NewestJob | crates/litehtml-view-d2d/src/worker.rs:161-176 | the newest queued job survives, and asks for a reset exactly when some job of the queue did |
| RenderEngine.Worker.Render | crates/litehtml-view-d2d/src/worker.rs:103-151 | the pass loop does what the recursive form does: for all ids its checks may read, it is abandoned exactly when another id is read before a pass it comes to, fails exactly when a pass does not parse, and else shows what was loaded or its first pass decoded |
| RenderEngine.Worker.Begin | crates/litehtml-view-d2d/src/worker.rs:105-107 | what was requested is forgotten exactly when the job asks for it or an abandoned job left the flag, which is then spent; images stay |
| RenderEngine.Worker.OnePass | crates/litehtml-view-d2d/src/worker.rs:117-144 | a pass that parses goes again exactly when it is the first and a URL it tries has bytes, and otherwise sends what it drew with the images there were |
| RenderEngine.Worker.LoadAll | crates/litehtml-view-d2d/src/worker.rs:133-144 | every pending URL is tried, those whose bytes decode become loaded, and the result says whether some bytes were had |
| RenderEngine.Container.LoadImage | crates/litehtml-view-d2d/src/container.rs:368-374 | a URL is queued once, and never when empty, loaded, or requested before |
| RenderEngine.Container.DrawPass | crates/litehtml-view-d2d/src/worker.rs:116-119 | one layout requests the document's URLs in order |
| RenderEngine.Container.LoadImageData | crates/litehtml-view-d2d/src/container.rs:147-160 | a decoded image gets the next key, one per URL, and no key already given changes |
| RenderEngine.Container.ClearPendingImages | crates/litehtml-view-d2d/src/container.rs:227-230 | forgets what was pending and requested and keeps what is loaded |
| RenderEngine.Container.TakePendingImages | crates/litehtml-view-d2d/src/container.rs:233-235 | hands over every pending URL in order and leaves none |
| RenderEngine.RequestAllAccounts | crates/litehtml-view-d2d/src/container.rs:368-374 | after a layout each of its URLs is loaded or requested, and nothing is requested without being loaded, tried or pending |
| RenderEngine.WorkKeepsImages | crates/litehtml-view-d2d/src/worker.rs:112-144 | a pass keeps the image accounting; the frame it sends covers every URL of the document; a second pass never goes again |
| RenderEngine.WorkDoesAPass | crates/litehtml-view-d2d/src/worker.rs:117-144 | the same of the functional form, URL by URL: which are tried, which become images, and which are marked as requested |
| RenderEngine.RenderFromDoes | crates/litehtml-view-d2d/src/worker.rs:103-151 | the same of a whole job: when it is abandoned, when it fails, and what its frame shows |
| RenderEngine.StartIsRight | crates/litehtml-view-d2d/src/worker.rs:105-107 | a job without a reset keeps what was requested unless an abandoned job left the flag; otherwise nothing stays requested or counted as tried, and every image stays |
| RenderProtocol.StepsAddUpToRender | crates/litehtml-view-d2d/src/worker.rs:103-151 | the checks and draws of the step relation add up to `render`, with the same image fields and the same output |
| RenderProtocol.BatchReset | crates/litehtml-view-d2d/src/worker.rs:161-176 | collapsing a batch resets exactly when a page was loaded since the last job before it |
| RenderProtocol.RunKeeps | crates/litehtml-view-d2d/src/widget.rs:182-223 | the whole invariant of widget, channels and worker holds in every state of every run |
| RenderProtocol.FrameShowsLoadedPage | crates/litehtml-view-d2d/src/widget.rs:134-223 | in every interleaving the frame held was rendered from the page loaded last |
| RenderProtocol.ResetIsNeverLost | crates/litehtml-view-d2d/src/worker.rs:103-176 | every frame sent was made after the reset its page's load asked for, with each image URL loaded or tried since |
| RenderProtocol.EveryJobIsAccountedFor | crates/litehtml-view-d2d/src/worker.rs:82-176 | each job taken is answered exactly once, or collapsed, superseded by a newer stored id, or still running, and then not answered |
| RenderProtocol.NewestSubmitIsAnswered | crates/litehtml-view-d2d/src/widget.rs:145-223 | when nothing is owed the newest submit was answered once by its own id, and the widget is ready with that page, within half a pixel of the width last painted, or failed |
| RenderProtocol.PaintSubmitsIff | crates/litehtml-view-d2d/src/widget.rs:299-307 | a paint submits exactly when a load is owed or the width moved by more than half a pixel, and changes nothing otherwise |
| RenderProtocol.CheckGoesOnIff | crates/litehtml-view-d2d/src/worker.rs:112-116 | a pass is drawn exactly when no newer id was stored at its check; a job dropped leaves the flag and sends nothing |
| RenderProtocol.DecodedImagesAreShown | crates/litehtml-view-d2d/src/worker.rs:103-151 | in every run an image decoded by a job's first pass makes it go again, and every frame recorded since shows it |
| RenderProtocol.DroppedJobIsMadeGood | crates/litehtml-view-d2d/src/worker.rs:60-63 | in every run the job taken after a dropped one starts with nothing requested, and with every image loaded so far |
| RenderProtocol.PollLoopReceivesAll | crates/litehtml-view-d2d/src/widget.rs:198-223 | the steps of a poll loop add up to receiving the whole channel |
| RenderProtocol.WorkerCanStep | crates/litehtml-view-d2d/src/worker.rs:82-151 | while a job is queued or running, a step of the worker is enabled: it never blocks |
| RenderProtocol.WorkerStepLowers | crates/litehtml-view-d2d/src/worker.rs:82-151 | each step of the worker leaves strictly less to do and nothing of the widget or its queue changed |
| RenderProtocol.WorkIsBounded | crates/litehtml-view-d2d/src/worker.rs:82-176 | in any interleaving with no load and no submit due, the worker takes at most the steps it had left |
| RenderProtocol.PollEndsQuiet | crates/litehtml-view-d2d/src/widget.rs:198-223 | once the worker is idle, the poll loop of any paint ends owing nothing |
| RenderProtocol.QuietIsReached | crates/litehtml-view-d2d/src/widget.rs:198-223 | from every reachable state of a paint that polls, the steps of worker and poll reach a state that owes nothing |
| RenderWidget.HtmlWidget.LoadPage | crates/litehtml-view-d2d/src/widget.rs:134-142 | drops the frame, the failure, the text selection and the scroll offset, and asks for a reset and a render |
| RenderWidget.HtmlWidget.Submit | crates/litehtml-view-d2d/src/widget.rs:182-196 | stores the next id and then sends a job with it, taking the reset flag along |
| RenderWidget.HtmlWidget.Poll | crates/litehtml-view-d2d/src/widget.rs:198-223 | the draining loop holds the last frame of the submitted id, fails exactly when that id failed or the worker is gone, and drops the text selection for other text |
| RenderWidget.HtmlWidget.Paint | crates/litehtml-view-d2d/src/widget.rs:299-307 | a paint submits exactly when a load is owed or the width moved by more than half a pixel, ends within half a pixel of the width painted, and then adopts only answers to the newest id; nothing else of the widget changes |
| RenderWidget.ReceiveAllAdopts | crates/litehtml-view-d2d/src/widget.rs:198-223 | draining changes the frame and the failure only, and adopts a frame only from the channel under the submitted id |
| RenderWidget.SelectionSurvivesSameText | crates/litehtml-view-d2d/src/widget.rs:198-223 | a text selection survives a poll exactly when every frame adopted has the text of the one held |
| FolderTree.JoinUndoesSplit | crates/esmail/src/imap.rs:237-241 | splitting a name on its delimiter loses no character |
| FolderTree.PiecesHoldNoDelimiter | crates/esmail/src/imap.rs:237-241 | no piece of the split holds the delimiter anywhere |
| FolderTree.SplitUndoesJoin | crates/esmail/src/imap.rs:237-241 | parts joined by a delimiter come back from the split, empty ones too |
| FolderTree.SegmentsAreTheParts | crates/esmail/src/imap.rs:237-241 | a name has the non-empty parts it is written as, and without a delimiter itself alone |
| FolderTree.EveryNameIsWritten | crates/esmail/src/imap.rs:237-241 | every name is written as some parts |
| FolderTree.InsertPathInfo | crates/esmail/src/imap.rs:249-275 | one insert changes the tree's map at the prefixes of its path only, and how |
| FolderTree.InsertAllDescribes | crates/esmail/src/imap.rs:233-275 | a node exists at a path exactly when the parts of some name lead to it, with the last selectable name and the last role there |
| FolderTree.InsertKeepsUnique | crates/esmail/src/imap.rs:249-275 | an insert keeps sibling labels unique at every level |
| FolderTree.InsertAllUnique | crates/esmail/src/imap.rs:233-275 | the tree has unique sibling labels at every level |
| FolderOrder.SortLevelSorts | crates/esmail/src/imap.rs:277-278 | a level comes out ascending by sort key with the same nodes |
| FolderOrder.SortLevelIsStable | crates/esmail/src/imap.rs:277-278 | nodes with equal keys keep their order |
| FolderOrder.KeyOrder | crates/esmail/src/imap.rs:357-371 | keys are in a strict total order, rank before name |
| FolderOrder.SortTreeSorts | crates/esmail/src/imap.rs:277-282 | every level of the sorted tree is in order |
| FolderOrder.SortedIsInOrder | crates/esmail/src/imap.rs:357-371 | the order is Inbox, Sent, Drafts, Archive, Junk, Trash and then the rest, and alphabetical within, ignoring the case of ASCII letters |
| FolderOrder.SortKeepsInfo | crates/esmail/src/imap.rs:277-282 | sorting does not change what is at any path |
| FolderOrder.SortKeepsUnique | crates/esmail/src/imap.rs:277-282 | sorting keeps sibling labels unique |
| FolderOrder.MailboxTreeDescribes | crates/esmail/src/imap.rs:228-282 | the finished tree has a node exactly where the parts of listed names lead, with their names and roles, unique labels, and that order at every level |
| FolderOrder.InsertInto | crates/esmail/src/imap.rs:249-275 | the loop over siblings inserts as the recursive form does |
| FolderOrder.SortInPlace | crates/esmail/src/imap.rs:277-282 | sorting a level and then each node's children sorts the tree |
| FolderOrder.BuildTree | crates/esmail/src/imap.rs:233-247 | the loop over the listed names builds the tree that `MailboxTreeDescribes` is about |
| FolderRows.FlattenInto | crates/esmail/src/imap.rs:313-326 | the loop pushes exactly the preorder rows |
| FolderRows.FlattenTail | crates/esmail/src/imap.rs:313-326 | row `i` is node `i` in preorder, followed by its children's rows |
| FolderRows.RowsTellTheTree | crates/esmail/src/imap.rs:298-326 | a row has its node's depth, label, name and role, and as key the labels from the root joined by slashes |
| FolderRows.RowsAreTheNodes | crates/esmail/src/imap.rs:305-326 | the rows are the nodes of the tree, each once, parents first and brothers in order |
| FolderRows.KeysTellRowsApart | crates/esmail/src/imap.rs:298-300 | with unique sibling labels, none empty or with a slash in it, no two rows share a key |
| FolderRows.LabelClashesIff | crates/esmail/src/imap.rs:298-315 | a label shares its key with a path of plain labels exactly when it holds slashes, each between two non-empty pieces |
| FolderRows.SlashLabelsShareAKey | crates/esmail/src/imap.rs:298-315 | a tree in which two folders share a key |
| FolderRows.VisibleRows | crates/esmail/src/imap.rs:330-347 | the one-pass scan with `hidden_below` returns what the recursive scan does |
| FolderRows.VisibleRowsAreExact | crates/esmail/src/imap.rs:328-347 | for every list of rows, the result is, in order, exactly the rows with no folded proper ancestor |
| FolderRows.VisibleFromShows | crates/esmail/src/imap.rs:330-347 | the rows at the visible indices are the rows shown |
| FolderRows.ShownIsTheCutTree | crates/esmail/src/imap.rs:313-347 | the rows shown are the flattening of the tree with folded nodes' children cut |
| FolderRows.VisibleRowsOfTree | crates/esmail/src/imap.rs:305-347 | the visible rows of a flattened tree are the flattening of the cut tree |
| FolderRows.DescendantsAreTheChildren | crates/esmail/src/imap.rs:349-355 | the rows below row `i` are exactly the flattening of node `i`'s children |
| FolderRows.AncestorsAreParents | crates/esmail/src/imap.rs:349-355 | in any list of rows, row `i` is below row `j` by depth exactly when it is among its descendants |
| MailStore.StepKeepsValid | crates/mail-mock-server/src/store.rs:50-99 | each operation keeps UIDs ascending below `uid_next`, which never falls |
| MailStore.StepOrigins | crates/mail-mock-server/src/store.rs:50-99 | each message after a step was there before it, with its bytes and envelope, or arrived by it |
| MailStore.FlagsAfterStore | crates/mail-mock-server/src/store.rs:62-84 | after a STORE a flag is set, ignoring case, exactly when added, or set before and not removed |
| MailStore.UidsAreNeverReused | crates/mail-mock-server/src/store.rs:50-215 | over every run arrivals take consecutive fresh UIDs, and what is left has the UID, bytes and envelope it arrived with |
| MailMove.MarkAndExpungeRemovesOne | crates/mail-mock-server/src/store.rs:62-99 | marking and expunging removes one message alone exactly when it ends up marked and no other was |
| MailMove.MoveOntoItself | crates/esmail/src/imap.rs:1134-1155 | the same for a move whose destination is its source, where the copy can go too |
| MailMove.MoveIsExactWhenSafe | crates/esmail/src/imap.rs:1122-1155 | the fallback removes exactly the moved message, in order, and adds exactly one copy under a fresh UID, exactly when it is safe |
| MailMove.MoveIsExactWithoutFlags | crates/esmail/src/imap.rs:1128-1155 | with no message of the source flagged deleted, every move is exact |
| MailMove.LowerCaseFlagDefeatsMove | crates/mail-mock-server/src/store.rs:77-99 | a message flagged in lower case is copied and stays |
| MailMoveShared.MoveAmidOthers | crates/esmail/src/imap.rs:1134-1155 | when other connections leave the flag alone, the source ends as if their commands had run alone with exactly the moved message taken out |
| MailMoveShared.MoveAmidAnyone | crates/esmail/src/imap.rs:1134-1155 | whatever other connections do between the three commands, every message but the moved one ends as if theirs had run alone and then an EXPUNGE |
| MailMoveShared.MoveAmidIsExactIff | crates/esmail/src/imap.rs:1134-1155 | exactly the moved message is taken out just when it did leave and no other was marked by then |
| MailMoveShared.MovedMessageLeaves | crates/esmail/src/imap.rs:1134-1155 | the moved message leaves when the mark takes and no other connection takes it off |
| MailMoveShared.MovedMessageLeavesIff | crates/esmail/src/imap.rs:1134-1155 | with nobody in between it leaves exactly when it has no other spelling of the flag alone |
| MailMoveShared.DestinationGainsOneCopy | crates/mail-mock-server/src/store.rs:207-215 | whatever other connections do to the destination, it gains exactly one message, under a fresh UID, and its others are as if that had never come; the copy stays until somebody marks it |
| MailMoveShared.StoreIsFlagAll | crates/mail-mock-server/src/store.rs:62-84 | a STORE changes every message with the UID, since UIDs are unique |
| MailServer.Mailbox.AppendMessage | crates/mail-mock-server/src/store.rs:50-55 | appends under `uid_next` and advances it |
| MailServer.FindMessage | crates/mail-mock-server/src/store.rs:62-66 | the scan stops at the first message with the UID, or past the end |
| MailServer.Mailbox.ChangeFlags | crates/mail-mock-server/src/store.rs:62-84 | the two loops remove and then add flags, ignoring case, on the first message with the UID |
| MailServer.Mailbox.ExpungeDeleted | crates/mail-mock-server/src/store.rs:89-99 | drops exactly the messages flagged deleted and reports their UIDs, once each and in order |
| MailServer.Store.Deliver | crates/mail-mock-server/src/store.rs:190-199 | appends to the recipient's mailbox, created when missing, and changes no other |
| MailServer.Store.AppendTo | crates/mail-mock-server/src/store.rs:190-215 | appends to the mailbox of that name, created when missing, under its next UID and changes no other |
| MailServer.Store.CopyMessage | crates/mail-mock-server/src/store.rs:207-215 | copies bytes, envelope and flags under a fresh UID; with no such message nothing changes |
| MailServer.Store.MoveMessage | crates/mail-mock-server/src/imap_server.rs:429-587 | COPY, STORE and EXPUNGE on the shared mailboxes do what the fallback is said to do |
| MailCache.FlagsColumnRoundTrip | crates/esmail/src/db.rs:801-810 | the flags column gives the flags back exactly when each is a word |
| MailCache.FlagsAreSpaced | crates/esmail/src/db.rs:801-810 | the flags of the column stand with a space between them |
| MailCache.IndexHeadersRows | crates/esmail/src/db.rs:538-559 | indexing headers writes the last header of each UID, keeps a known size, and touches no other row or table |
| MailCache.CommandKeepsConsistent | crates/esmail/src/db.rs:538-883 | every command keeps for each cached body one message row with its size and one search row with its text, and the cap |
| MailCache.CacheRuns | crates/esmail/src/db.rs:538-883 | over every run the tables are consistent and each row is as last written |
| MailCache.CachedMailIsAsLastWritten | crates/esmail/src/db.rs:769-799 | a mail is found exactly while its body is cached, with the headers, body and attachments last written, and with the flags last written exactly when each is a word |
| MailCache.IndexingEvictsOldest | crates/esmail/src/db.rs:666-679 | a body, old or new, is let go only at the cap of 2000, and is no newer than any kept |
| MailCache.JustIndexedIsCached | crates/esmail/src/db.rs:565-679 | the mail just indexed is cached whenever there is room, it was cached before, or some cached body is strictly older |
| MailCache.ResyncLeavesNoRow | crates/esmail/src/db.rs:812-854 | after a Resync decision no table holds a row of the mailbox and no other mailbox lost one |
| MailCache.ReportIsExact | crates/esmail/src/db.rs:1024-1045 | the same of the decision and its effect, as one statement over every state stored and reported |
| MailCache.RemovalIsExact | crates/esmail/src/db.rs:877-882 | removing a message takes its rows from the three tables and leaves every other row |
| MailCache.AccountRemovalIsExact | crates/esmail/src/db.rs:870-875 | removing an account takes exactly its rows and mailbox states |
| MailCache.IndexingIsExact | crates/esmail/src/db.rs:565-623 | indexing a mail writes one message row and one search row and leaves every other row of the tables |
| MailCache.FlagsAreExact | crates/esmail/src/db.rs:860-866 | new flags change the flags of an existing row and nothing else |
| MailCache.Utf8LengthCounts | crates/esmail/src/db.rs:565-600 | the size stored counts the body's UTF-8 bytes |
| MailCache.Cache.IndexAllHeaders | crates/esmail/src/db.rs:538-559 | the loop of upserts indexes the headers in order |
| MailCache.Cache.IndexOneMail | crates/esmail/src/db.rs:565-623 | writes the three tables, the size among them, and then evicts |
| MailCache.Cache.EvictLruBodies | crates/esmail/src/db.rs:670-679 | removes oldest rows one by one until the cap holds, and no more |
| MailCache.Cache.DeleteWhere | crates/esmail/src/db.rs:829-883 | removes the rows a condition names from messages, bodies and the search table, and no other |
| MailCache.Cache.WipeMailbox | crates/esmail/src/db.rs:829-842 | removes exactly one mailbox's rows from the three tables |
| MailCache.Cache.ReportMailboxState | crates/esmail/src/db.rs:812-854 | wipes exactly when another UIDVALIDITY was stored, and otherwise changes no row; asks for what is new from the stored `uid_next`, or for everything when nothing was stored; stores what was reported |
| MailCache.Cache.DropMessage | crates/esmail/src/db.rs:877-882 | removes one message from every table |
| MailCache.Cache.DropAccount | crates/esmail/src/db.rs:870-875 | removes one account from every table |
| MailboxSync.ReportKeeps | crates/esmail/src/db.rs:1024-1045 | applying a report leaves every message below the new `uid_next` cached, planned for, or on its way |
| MailboxSync.FetchKeeps | crates/esmail/src/imap.rs:1006-1030 | a planned fetch that was run is on its way, and still covers all it was planned for |
| MailboxSync.SendKeeps | crates/esmail/src/app/pump.rs:86-107 | sending an event that is true of the server, behind all that were sent before, keeps the invariant; a download may be sent at any time |
| MailboxSync.IndexKeeps | crates/esmail/src/app/pump.rs:214-229 | applying the headers of a fetch keeps the rows current and loses no message owed |
| MailboxSync.InStepIffInTime | crates/esmail/src/app/pump.rs:166-175 | in any run whatever, indexing a download keeps its mailbox in step exactly when a numbering is stored that is not newer than the one the download was read under |
| MailboxSync.MoveLeavesNoGapIff | crates/esmail/src/db.rs:877-882 | in any run whatever, dropping a message reported moved leaves no gap below the stored `uid_next` exactly when it left the server or is to be fetched again |
| MailboxSync.RunKeeps | crates/esmail/src/db.rs:812-854 | the invariant of server, events in flight, planned fetches and tables holds in every state of every run, whatever downloads and moves it has |
| MailboxSync.CompletedRoundIsComplete | crates/esmail/src/db.rs:812-854 | in every run whose moves leave no message behind, once nothing planned is left or on its way, each server message below the stored `uid_next` is cached |
| MailboxSync.NoRowOfAnOldNumbering | crates/esmail/src/db.rs:812-854 | in every run whose downloads are indexed in time, each message, body and search row is about the message its UID was given to under the current UIDVALIDITY |
| MailboxSync.NoRowBeforeAReport | crates/esmail/src/db.rs:812-854 | in every such run a mailbox never reported has no row in any table |
| MailboxSync.SentInTimeIsInTime | crates/esmail/src/app/pump.rs:166-175 | a run that sends its downloads after a report of their mailbox, and before any of a newer numbering, indexes them in time |
| SyncShortfalls.LateDownloadLeavesOldRow | crates/esmail/src/imap.rs:1033-1086 | a run in which a download indexed after a newer numbering was reported leaves rows of the old one, with nothing under way to correct them |
| SyncShortfalls.EarlyDownloadLeavesOldRow | crates/esmail/src/db.rs:1029-1037 | a run in which a download indexed before any report leaves a search row of the old numbering for good |
| SyncShortfalls.MoveThatStaysLeavesAGap | crates/esmail/src/app/pump.rs:338-342 | a run in which a message reported moved, but still there, is missing from the cache for good |
| Watermark.Forwarder.HandleEvent | crates/esmail/src/session.rs:202-241 | each event changes the connection flag, watermark, watch, commands and toasts as specified |
| Watermark.Forwarder.ForwardAndWatch | crates/esmail/src/session.rs:198-263 | the loop over events, ticks and pushes does what the recursive form does, up to where it ends |
| Watermark.EveryEventIsForwarded | crates/esmail/src/session.rs:198-246 | every event reaches the UI in order, and toasts go up for exactly the watched mailbox's non-empty headers |
| Watermark.LoopEnds | crates/esmail/src/session.rs:198-246 | the loop ends when the actor or the UI is gone; the last event was handled but not forwarded |
| Watermark.IdleWatchStartsOnce | crates/esmail/src/session.rs:183-214 | one IDLE watch is started, by the first connect and never before |
| Watermark.EveryWakePolls | crates/esmail/src/session.rs:247-263 | each tick, and each push of a watch still open, polls the watched mailbox exactly when the account is connected, and nothing else polls |
| Watermark.DrainKeeps | crates/esmail/src/notify.rs:53-67 | handling one event keeps the announced ranges a chain from the baseline to the watermark |
| Watermark.ChainCovers | crates/esmail/src/notify.rs:27-43 | a chain of ranges is consecutive and covers each UID between its ends exactly once, and no other |
| Watermark.AnnouncedOnceEach | crates/esmail/src/notify.rs:45-67 | in every run nothing is announced before a baseline, and since it exactly the UIDs up to the last poll, each once |
| Watermark.CaughtUpMeansAnnounced | crates/esmail/src/notify.rs:45-67 | once a current poll is handled, a message of the mailbox is announced exactly when it arrived since the baseline |
| Watermark.AnnouncedIsAsked | crates/esmail/src/session.rs:219-234 | in every run the headers of each announced range have been asked for |
| Watermark.AnsweredRangeIsToasted | crates/esmail/src/session.rs:219-241 | in every run, once the fetch of an announced range was answered and the answer forwarded, each message of the range then on the server is in a toast |
| Watermark.AnswerIsTheRangeIff | crates/esmail/src/imap.rs:1002-1025 | an answer tells of the announced range alone exactly when nothing that arrived since is there |
| Watermark.LaterArrivalIsToldEarly | crates/esmail/src/imap.rs:1002-1025 | a mailbox in which the answer tells of a message beyond the announced range |
| Paging.FetchHeaders | crates/esmail/src/imap.rs:939-977 | collects the page's messages and reverses them |
| Paging.QueryInRange | crates/esmail/src/imap.rs:955-962 | every request asks for one to fifty messages that exist |
| Paging.PageCount | crates/esmail/src/imap.rs:955-956 | the page count is the ceiling of the total by fifty exactly when the sum fits 32 bits |
| Paging.PagesAreTheNewest | crates/esmail/src/imap.rs:955-975 | the first n pages are the newest messages, in order |
| Paging.PagesTileTheMailbox | crates/esmail/src/imap.rs:955-975 | all pages are the whole mailbox newest first, with no gap or overlap, exactly up to 2^32 - 50 messages |
| Paging.PageSizes | crates/esmail/src/imap.rs:955-962 | every page but the last has fifty entries, the last one to fifty |
| Paging.OutOfRangeClamps | crates/esmail/src/imap.rs:957-957 | a request out of range answers with the first or the last page |
| Outbox.BackoffIsMonotone | crates/esmail/src/db.rs:952-959 | waits are monotone within 30 seconds and an hour; the arithmetic would overflow for one count alone |
| Outbox.BackoffDoubles | crates/esmail/src/db.rs:952-959 | the wait doubles from 30 seconds and is an hour from the eighth failure on |
| Outbox.LeastDelayIs | crates/esmail/src/db.rs:952-959 | the waits add up to 30*(2^(n-1)-1) through the eighth failure and an hour more for each after it |
| Outbox.FailuresKeepTheSchedule | crates/esmail/src/db.rs:932-969 | in every run a row retried only when due fails the n-th time no sooner than that after the first |
| Outbox.RunsCountFailures | crates/esmail/src/db.rs:893-969 | in every run from an empty outbox failures are counted from nothing, and ids stay below the counter |
| Outbox.BackoffNeverOverflows | crates/esmail/src/db.rs:952-969 | in every such run the backoff is asked for a count of at least one and does not overflow |
| Outbox.NewRowsAreFresh | crates/esmail/src/db.rs:893-918 | a new row gets an unused id, is due at once, and changes no other row |
| Outbox.RowsTellTheirStories | crates/esmail/src/db.rs:893-969 | over every run each row holds the mail last queued under its id, when it was first, the failures since, the last error and when it is due |
| Outbox.Queue.EnqueueMail | crates/esmail/src/db.rs:893-918 | inserts a row, or resets one that exists; when the mail cannot be serialised nothing changes |
| Outbox.Queue.DueMail | crates/esmail/src/db.rs:932-939 | returns exactly the due rows, with account, mail, failures and last error, by ascending id |
| Outbox.Queue.MarkMailFailed | crates/esmail/src/db.rs:961-969 | counts the failure and pushes the next attempt out, or reports a missing row and changes nothing |
| Geometry.IntersectIsCommonPoints | crates/litehtml-view-d2d/src/geom.rs:91-105 | the intersection holds exactly the common points, and there is none exactly when there are none |
| Geometry.OverlapIsCommonPoint | crates/litehtml-view-d2d/src/geom.rs:86-89 | rectangles that share a point overlap, proper ones exactly then; the default rectangle may overlap and holds nothing |
| DisplayList.InkStaysInBounds | crates/litehtml-view-d2d/src/list.rs:195-214 | every command but a wide outline keeps its shape and spread inside its bounds |
| DisplayList.OutlineStaysInBoundsIff | crates/litehtml-view-d2d/src/list.rs:195-214 | an outline does exactly when half its pen and the spread come to at most one pixel |
| DisplayList.BoundsAreTight | crates/litehtml-view-d2d/src/list.rs:195-214 | bounds hold exactly the points within a pixel of a shape's box, a pen's width more for a line, half of it for a circle, two pixels for a text; clips have none |
| Painter.Narrow | crates/litehtml-view-d2d/src/paint.rs:95-95 | the fold over the open clips, with its fallback to the empty rectangle |
| Painter.Canvas.Pop | crates/litehtml-view-d2d/src/paint.rs:87-91 | takes the innermost clip, or reports that there is none and changes nothing |
| Painter.Paint | crates/litehtml-view-d2d/src/paint.rs:66-103 | the replay loop on a canvas draws exactly what the culling replay draws |
| Painter.NarrowedKeeps | crates/litehtml-view-d2d/src/paint.rs:94-98 | a point of the visible part and of every clip is never narrowed away |
| Painter.NarrowedIsCommon | crates/litehtml-view-d2d/src/paint.rs:94-98 | what is left of the view is exactly what it and every clip hold |
| Painter.CulledIff | crates/litehtml-view-d2d/src/paint.rs:94-98 | a command is skipped exactly when it has bounds and no point of them can show |
| Painter.CulledIsInvisible | crates/litehtml-view-d2d/src/paint.rs:94-98 | a culled command would have shown at no point of the viewport |
| Painter.CullingChangesNothing | crates/litehtml-view-d2d/src/paint.rs:62-103 | for every command list, balanced or not, culling shows the same at each viewport point, given ink inside bounds |
| Painter.WholePaintingIs | crates/litehtml-view-d2d/src/paint.rs:62-103 | the whole replay is the background and every command once, in order, moved by the scroll, under the viewport and the clips then open |
| Painter.PaintingIs | crates/litehtml-view-d2d/src/paint.rs:62-103 | the painting is the same without the commands that are skipped, and which those are depends on the rectangles pushed and not popped |
| Painter.CullingIsSafeWithoutWideOutlines | crates/litehtml-view-d2d/src/paint.rs:62-103 | with this list's shapes, culling is right whenever no outline's pen reaches out |
| Painter.OutlineCullingIff | crates/litehtml-view-d2d/src/list.rs:333-357 | culling an outline is right in every view exactly when its pen stays within a pixel |
| ListSelection.SpanIs | crates/esmail-win32/src/selection.rs:171-178 | a range is ascending and holds exactly the rows between its ends |
| ListSelection.ToggleFlipsOne | crates/esmail-win32/src/selection.rs:47-56 | Ctrl+click flips one row and no other, and keeps the order |
| ListSelection.RemoveAllIs | crates/esmail-win32/src/selection.rs:96-102 | the selection after a removal is ascending and holds exactly the surviving rows, moved up |
| ListSelection.InsertKeepsMessages | crates/esmail-win32/src/selection.rs:85-92 | after an insert the same messages are selected, anchored and focused |
| ListSelection.RemoveKeepsSurvivors | crates/esmail-win32/src/selection.rs:94-102 | after a removal exactly the surviving selected messages are selected, in order |
| ListSelection.SelectionFollowsMessages | crates/esmail-win32/src/selection.rs:85-102 | over every run of arrivals and removals exactly the messages first selected that did not leave are selected, in order; anchor and focus stay on their messages or go with them |
| ListSelection.RemoveKeepsInBounds | crates/esmail-win32/src/selection.rs:94-102 | a removal keeps selection, anchor and focus inside the shorter list |
| ListSelection.ReplaceKeepsExistingRows | crates/esmail-win32/src/selection.rs:111-120 | a replaced selection is exactly the requested rows that exist, each once, ascending |
| ListSelection.ShiftKeysSpanFromTheClick | crates/esmail-win32/src/selection.rs:67-83 | any run of Shift+key moves selects exactly the rows between the clicked one and the focus |
| ListSelection.KeysUndoOneAnother | crates/esmail-win32/src/selection.rs:135-150 | the paging keys undo one another exactly unless an end stopped them; the arrows are pages of one |
| ListSelection.Selection.Search | crates/esmail-win32/src/selection.rs:47-53 | the binary search finds the row or where it belongs |
| ListSelection.Selection.Has | crates/esmail-win32/src/selection.rs:129-132 | says whether the row is selected |
| ListSelection.Selection.ToggleRow | crates/esmail-win32/src/selection.rs:47-56 | toggles one row in place through the search, keeps the others and the order, and anchors and focuses it |
| ListSelection.Selection.Extend | crates/esmail-win32/src/selection.rs:62-66 | selects exactly the rows from the anchor, else the focus, to the row, and leaves the anchor |
| ListSelection.Selection.MoveTo | crates/esmail-win32/src/selection.rs:73-83 | with Ctrl moves the focus alone, with Shift extends, and otherwise selects, anchors and focuses only the row |
| ListSelection.Selection.RowsInserted | crates/esmail-win32/src/selection.rs:87-92 | shifts every selected row in place, and the anchor and focus |
| ListSelection.Selection.RowsRemoved | crates/esmail-win32/src/selection.rs:96-102 | filters and shifts the selected rows, and drops a removed anchor or focus |
| ListSelection.Selection.ReplaceWith | crates/esmail-win32/src/selection.rs:113-120 | selects exactly the rows that exist, ascending, and anchors and focuses the first |
| ListSelection.Selection.NavigateBy | crates/esmail-win32/src/selection.rs:166-170 | moves by a row or a page, no further than the ends, or to an end; does nothing for another key or an empty list |
| ListView.ViewState.InsertRows | crates/esmail-win32/src/state.rs:54-60 | grows the list, moves the selection, and scrolls when rows came in above |
| ListView.ViewState.RemoveRows | crates/esmail-win32/src/state.rs:65-71 | shrinks the list, moves the selection, and takes the rows above the view off the offset, for any row height |
| ListView.InsertKeepsTopMessage | crates/esmail-win32/src/state.rs:51-60 | a scrolled view keeps its top message at its offset; one at the top stays there |
| ListView.RemoveKeepsTopMessage | crates/esmail-win32/src/state.rs:62-71 | the top message keeps its offset unless it was removed, and then the row after the gap has it |
| ListView.EditKeepsTopIff | crates/esmail-win32/src/state.rs:51-71 | an arrival or removal keeps the top message at its offset exactly when it neither removes it nor puts rows above it in a view that is not scrolled |
| ListView.TopMessageStays | crates/esmail-win32/src/state.rs:51-71 | over every run of such arrivals and removals the top message keeps its offset |
| ListView.InsertThenRemoveIsIdentity | crates/esmail-win32/src/state.rs:54-71 | inserting and removing the same rows is the identity exactly when the offset is not negative |
| ListView.ClampIs | crates/esmail-win32/src/state.rs:80-97 | the largest offset ends the list at the window's end; an offset inside is kept, one outside goes to the nearer end, and one that is no number becomes zero |
| ListView.VisibleRangeIsExact | crates/esmail-win32/src/state.rs:107-120 | for every offset, the range holds exactly the rows that overlap the window, at least one |
| ListView.RowAtIsExact | crates/esmail-win32/src/state.rs:122-130 | a point is on a row exactly when the row's span holds it |
| ListView.ScrollForRowIsLeast | crates/esmail-win32/src/state.rs:132-145 | the row is shown in full exactly when it fits, by the least move; one that does not fit is put at the edge it was beyond |
| ListView.ApplyKeepsInBounds | crates/esmail-win32/src/state.rs:36-72 | each operation keeps selection, anchor and focus inside the list |
| ListView.RunsStayInBounds | crates/esmail-win32/src/state.rs:36-72 | over every run the offset is not negative and, when Ctrl+A meets no empty list, the selection is ascending and all rows exist |
| ListView.SelectAllIsInBoundsIff | crates/esmail-win32/src/selection.rs:104-109 | select-all is in bounds exactly when there is a row |
| ListView.SelectAllOnEmptyEscapes | crates/esmail-win32/src/selection.rs:104-109 | on an empty list it leads to a selected row that does not exist |
| SearchQuery.Tokenize | crates/esmail/src/search_query.rs:195-224 | the loop over characters gives the tokens of the recursive form |
| SearchQuery.ParseQuery | crates/esmail/src/search_query.rs:50-82 | the loop over tokens reads each into its field, the last date winning |
| SearchQuery.TokensAreNotEmpty | crates/esmail/src/search_query.rs:200-224 | no token is empty, for any input |
| SearchQuery.TokenizeUndoesQuoting | crates/esmail/src/search_query.rs:195-237 | for every list of terms under their fields, quoted or bare, tokenizing gives prefix and term back |
| SearchQuery.QuotedTermsComeBackIff | crates/esmail/src/search_query.rs:195-237 | bare quoted terms come back exactly when none is empty |
| SearchQuery.ReadTakesItem | crates/esmail/src/search_query.rs:55-82 | a field's token goes to that field and to no other |
| SearchQuery.ParseFillsTheFields | crates/esmail/src/search_query.rs:50-82 | parsing fills each field with exactly its terms in order, the last date winning, and sets the two flags exactly when mentioned |
| SearchQuery.QuotedTermIsTextIff | crates/esmail/src/search_query.rs:50-82 | a quoted term is free text exactly when it is not empty and not a word of the grammar |
| Recipients.TokenStart | crates/esmail/src/contacts.rs:158-161 | one past the last comma before the caret |
| Recipients.TokenEnd | crates/esmail/src/contacts.rs:158-163 | the first comma from the caret on, or the end |
| Recipients.TokenBounds | crates/esmail/src/contacts.rs:156-165 | the token is what stands around the caret between the nearest commas, or the ends of the text; a caret beyond the text is at its end |
| Recipients.RecipientToken | crates/esmail/src/contacts.rs:117-131 | moving two indices inwards trims the caret's token |
| Recipients.CompleteRecipient | crates/esmail/src/contacts.rs:133-154 | appends the pieces of the completed field and says where the caret goes |
| Recipients.SplitCut | crates/esmail/src/compose.rs:138-140 | a comma splits a field's addresses in two |
| Recipients.SplitSkipsBlanks | crates/esmail/src/compose.rs:138-140 | blanks in front of a field change no address |
| Recipients.FieldIsThreeParts | crates/esmail/src/contacts.rs:156-163 | a field's addresses are those before, in and after the caret's token |
| Recipients.CompletingReplacesTheToken | crates/esmail/src/contacts.rs:133-154 | completing replaces the token's addresses by the insertion's, for every insertion, and changes no other |
| Recipients.InsertionIsOneAddressIff | crates/esmail/src/compose.rs:138-140 | an insertion is one address, itself trimmed, exactly when it is not blank and has no comma |
| Recipients.CompletingAddsOneAddress | crates/esmail/src/contacts.rs:133-154 | then completing gives the addresses before, the trimmed insertion, and those after |
| Recipients.CaretIsPastTheSeparator | crates/esmail/src/contacts.rs:133-154 | the caret ends just past the separator, in front of what followed |
| Emoji.Prepare | crates/esmail/src/emoji.rs:39-59 | the loop, and the shortcut for ASCII, swap exactly the clusters that are emoji |
| Emoji.AsciiHasNoEmoji | crates/esmail/src/emoji.rs:41-63 | the ASCII shortcut agrees with the loop |
| Emoji.SwappedIsWellPlaced | crates/esmail/src/emoji.rs:27-59 | indices ascend strictly and each is a placeholder's |
| Emoji.PrepareLosesNothing | crates/esmail/src/emoji.rs:27-59 | putting each emoji back at its index gives the original text |
| Emoji.ExactlyTheEmojiGo | crates/esmail/src/emoji.rs:39-63 | the emoji taken out are exactly those among the clusters, in order |
| Emoji.EmojiIff | crates/esmail/src/emoji.rs:61-100 | a cluster is swapped exactly when it is not all ASCII, asks for the emoji form, and has artwork, with or without its selectors |

## Left out

- Sockets, TLS, login, the async runtime, SMTP, the keyring and the settings: what they do lies in the libraries and the system they call.
- Full-text ranking, date filters, `to_fts_match` and `MessageFilters`: they rest on SQLite and on date parsing.
- The server's parsing of command lines, sequence sets and login: only what COPY, STORE and EXPUNGE do to the store, addressed by UID, as the client sends them.
- Drafts: the same table operations as the outbox, without the retries that make those hard.
- The rest of the contacts (ranking of suggestions), the reply and forward texts, and the notification texts: each is one string or one sort built in a single function, and nothing else depends on how.
- Widget drawing, menus, bars, hit testing, and dragging out a text selection; that `load` and `poll` drop one is modelled.
- Full channels: `try_send` of a command is taken to succeed. In runs of `RenderProtocol` the channels stay open (the widget's own methods do model a worker that is gone).
- Failed or cancelled fetches: a planned fetch in `MailboxSync` stays planned until it is run.
- A real `MOVE` command: what it does is the server's own affair.
- A UIDVALIDITY only grows, as section 2.3.1.1 of RFC 3501 demands; UIDs do not run out of 32 bits.
- The JSON and base64 form of attachments: attachments are stored as values.
- Rows with the same `cached_at`: which of them SQLite evicts first is left open, and so is the order of equal search rows.
- The bytes of images and of messages are opaque, and an image key stands for its place in the list.
- `IndexHeadersSearchable`, `OpenFolder` and the body loader: their source is not part of this model.
- Rounding of 32-bit floats: coordinates and offsets are real numbers; only a scroll offset from the host may also be non-finite.
- The shape of glyphs: a text's ink is taken to stay in the box it was measured to, and antialiasing to spread a shape by less than one pixel.
- A rounded clip that Direct2D refuses, and the caches of fonts and images: pushes succeed, and what a command inks does not depend on a cache.
- `decompose_borders` and `normalize_stops`: layout of borders and gradient stops; only the outline that the first produces is used here.
- Grapheme segmentation and the artwork set: the clusters are given, with their concatenation equal to the text, and whether artwork exists is a parameter.
- MailboxSync.RunKeeps: the queues that carry an account's events from its connections to the cache are one queue, since each passes everything on in order.
- MailboxSync.NoRowOfAnOldNumbering: promised for runs whose downloads are indexed in time, because it is false without that (`SyncShortfalls.LateDownloadLeavesOldRow`, `SyncShortfalls.EarlyDownloadLeavesOldRow`).
- MailboxSync.NoRowBeforeAReport: promised for the same runs, and false without (`SyncShortfalls.EarlyDownloadLeavesOldRow`).
- MailboxSync.CompletedRoundIsComplete: promised for runs whose moves leave no message behind, because it is false without that (`SyncShortfalls.MoveThatStaysLeavesAGap`).
- Outbox.Queue.DueMail: reading a stored mail back is taken to succeed, as it was written by the same serialiser.
