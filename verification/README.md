# Verification of influxcloud

A Dafny model of the write path of influxcloud, a clustered time-series
database, with proofs about it. A write takes four steps, and each is a part of
the model: the metadata service places shards on data nodes, the points writer
maps a batch of points to shards, it writes to the owners of each shard and
counts acknowledgements, and what an owner did not take is queued on disk and
sent later.

Check everything with `dafny verify dfyconfig.toml`.

## What is proved

**Hinted-handoff queue** (`Bytes`, `QueueSpec`, `Segment`, `SegmentList`,
`Queue`, `Reopen`). The objects work on bytes: a segment file is a run of
length-prefixed blocks and a footer with the head offset, the queue is a list of
segments in a directory. They refine a plain sequence of byte strings. The
invariant behind it is that every file is well-formed, the head offset is a
block boundary, the cached length is that of the block there, and the size an
object keeps is that of its file unless the file was opened over the maximum. On
top of it: draining, purging, the disk bound over all runs, and closing and
reopening.

**Sender** (`Handoff`, `SenderReach`, `NodeProcessor`, `PointText`, `LineProtocol`).
Over every interleaving of writers with the one sender and its purges, on whatever the
queue holds at the start: order is kept, and every entry moved past was delivered or
purged. Which entries the sender can ever reach, and exactly when the points of a write come
back from its text.

**Metadata** (`Metadata`, `Reassign`, `Placement`, `ShardGroups`,
`MetaInvariant`, `MetaMachine`, `MetaEffects`, `MetaRuns`). Every run of the commands, as long as
commands that create policies bring no shard groups along, keeps node identity,
shard ownership, shard groups that do not overlap, and IDs that are unique and
never given out twice. A run with groups brought along keeps the invariant exactly
as long as each of them can be taken over. `MetaEffects` says of every command what it
changes, when it fails, and that it changes nothing else.

**Copies of the metadata** (`Snapshots`, `MetaStore`). The store clones its data,
changes the clone and swaps it in. Objects have the fields of the source; slices of
subscriptions are headers that point into arrays which all clones share. The store
goes through exactly the runs above, and what an object handed out earlier shows
changes exactly when `CopyUnchangedExactly` says.

**Updates** (`UpdateProtocol`, `PollAnswers`, `Returns`, `Retry`). A client, any number
of its calls, its poller and any number of servers over one log: read your writes, no
lost wake-up, no deadlock, and exactly when the answer to a poll raises the cached
index. Which server each try of a call goes to.

**Points writer** (`PointsWriter`, `ShardWrite`). Which points of a batch are
mapped and where, and what the outcome of a replicated write means.

**Together** (`ReadBack`). When a client that has created a shard group finds it in
its cache afterwards: the update protocol, the state machine and the invariant of
shard groups in one statement.

## What the code does not do

Where the code falls short of what it is meant to do, the model follows the code,
shows an input, and gives the exact condition.

- **Segments are reopened newest first** (hh/queue.go:93), while entries are
  documented to be read back in order (hh/queue.go:30-40). Entries survive a reopen
  (`ReopenConserves`). If they differ, their order survives if and only if the
  segments that hold them are in descending order of ID (`ReopenOrderExactly`); a
  queue that was never reopened has ascending IDs (`RunAscends`), so there it
  survives if and only if at most one segment has entries left
  (`FirstReopenExactly`). `TwoEntriesSwap` is an input.
- **A file may exceed the segment maximum by 8 bytes and the queue maximum by 16**,
  because the checks do not count the length prefix (hh/queue.go:392,756).
  `DiskBound` is the real bound until the queue is reopened, and
  `DiskBoundIsReached` reaches it. `AppendKeepsMaxExactly` and
  `AppendKeepsFilesExactly` say exactly when an append keeps the files within the
  queue maximum and each file within the segment maximum.
- **A file over the segment maximum is opened with its size clipped**
  (hh/queue.go:525-534), so opening restores the header if and only if the file is no
  longer than the maximum (`OpenRestoresExactly`). Its unread entries are still read
  in order, but the test for the end misses it once it is exhausted, and misses no
  other segment (`AtFooterExactly`): an advance past its last entry does not trim it
  (`AdvanceOne`). Clipped sizes also leave out bytes of the disk usage:
  `DiskBoundReopened` is the bound then, and `ClippedUsageIsReached` reaches it.
- **A head block that is up to eight bytes short is taken for whole** when its file is
  opened, since the footer is read as a part of it (hh/queue.go:604-621):
  `OpenAcceptsExactly`.
- **The sender can stop for good.** An exhausted head with segments behind it reads
  as end of file, and the sender then never calls Advance (`BlockedForever`,
  `BlockedIsReachable`). While something is pending, this is the only state in which
  nothing is read (`BlockedExactly`). Appending, advancing, purging and opening can
  each lead there; `AppendBlocksExactly`, `AdvanceBlocksExactly`,
  `PurgeBlocksExactly` and `OpenBlocksExactly` say exactly when. The last two also say
  when a purge or an opening leads out again. Over many rounds: without further
  writes the sender delivers everything if and only if no exhausted segment, and none
  with a clipped size, lies before an unread entry (`DrainsExactly`; after opening,
  `OpenDrainsExactly`). If one does, the entries behind it are not moved past in any run
  before a purge, whatever is written meanwhile (`NoFurther`), and those before it can
  all be delivered (`AllTheWay`). `ClippedHeadStops` is an input with two entries, of
  which the second is never sent.
- **An empty entry breaks the cached length**, since zero means "exhausted"
  (hh/queue.go:788-790). `AppendKeepsAlignment` has the exact condition and
  `EmptyEntryMisaligns` the input. Marshalled writes are never empty.
- **Copies of the metadata share the arrays of subscriptions**, because cloning a
  policy copies its shard groups only (vendored services/meta/data.go:1134-1145),
  while subscriptions are dropped and appended in place. `DropShowsTwice` and
  `CreateShowsThrough` are inputs at which an object handed out before changes. An
  object is unchanged over a run if and only if no entry cuts an element it shows
  out of a longer list or appends over one (`CopyUnchangedExactly`), and it always
  is while no subscription is dropped (`NoDropNoChange`).
- **Term and index are stamped on an object that may be handed out**, when a command
  fails or only adds a shard owner (meta/store_fsm.go:78-88). `Store.Apply` states
  both cases.
- **A policy may bring shard groups along** (vendored services/meta/data.go:1119-1124),
  which are taken over unseen. `CarriedGroupBreaks` is an entry that breaks the
  invariant; `CreatePolicyKeepsExactly` says when such an entry keeps it, and
  `RunInvariantExactly` when a run does.
- **A server that lags can move a client's cache back** (meta/client.go:1181-1187):
  `LaggingServerMovesBack` is a run. Once a server is asked, the answer raises the
  index, however the run goes on, if and only if that server has applied at least
  what the cache has (`AnswerRaisesExactly`), which is always so with one server
  (`OneServerCaughtUp`).
- **A client may not find the shard group it has just created**, because it reads its
  cache after the call has returned (meta/client.go:782-789):
  `LaggingReadFindsNothing` is a run with two servers. It finds the group if and only
  if the cache has its entry at that time (`ReadFindsExactly`), which is always so
  while the asked servers have reached the cache (`CreatedGroupIsReadBack`).
- **A point older than the retention limit is mapped after all** when a newer point
  of the batch lies in the same group (cluster/points_writer.go:186-192):
  `OldPointIsMapped`. A point is mapped if and only if some point within the limit
  lies in its slot (`MappedExactly`).
- **An existing policy is never reported as a conflict** where it should be
  (meta/store_fsm.go:133), because the library returns its own error value:
  `ExistingPolicyErrors` says when which error is returned.
- **Not every point survives being queued as a line of text.** The text is cut into
  lines again when it is sent (vendored models/points.go:256-301,972-1022), where
  blank lines and comments are skipped and blanks and newlines at the ends are
  stripped. `HashIsLost` is a point that is lost; a newline in a quoted field is not a
  problem (`QuotedNewlineComesBack`). The points of a write come back if and only if
  each one starts with neither a blank nor a hash, does not end in a newline, and its
  line ends where the point does; the last one may also leave its line open
  (`PointsComeBackExactly`). In the line protocol a line always ends where its point
  does, whatever its quoted fields hold (`RenderedPointSurvives`).

## Model

| member | source | states |
|---|---|---|
| Bytes.U64RoundTrip | hh/queue.go:1004-1016 | an 8-byte big-endian number reads back as written |
| Bytes.ByteAt | hh/queue.go:1004-1016 | the most significant byte comes first: each byte is the number divided by the powers of 256 behind it, modulo 256 |
| QueueSpec.AppendIsEnqueue | hh/queue.go:384-406 | a successful append adds exactly the entry at the end of the pending ones, a failed one changes no pending entry |
| QueueSpec.AppendOutcomes | hh/queue.go:392-405 | an append is refused if and only if usage and entry exceed the queue maximum, and fails if and only if the entry fits neither the tail nor an empty segment |
| QueueSpec.CurrentIsOldest | hh/queue.go:409-417 | an entry that Current returns is the oldest pending one |
| QueueSpec.AdvanceIsDequeue | hh/queue.go:432-470 | Advance removes exactly the oldest entry, or nothing when the head segment is exhausted |
| QueueSpec.AdvanceDoesWork | hh/queue.go:432-470 | every Advance lowers the number of pending entries plus spare segments, until it is zero |
| QueueSpec.DrainingEmpties | hh/queue.go:432-470 | pending entries plus segments minus one calls of Advance empty the queue, also past an end-of-file answer |
| QueueSpec.DrainingKeepsOrder | hh/queue.go:432-470 | any number of Advance calls leaves a suffix of the pending entries |
| QueueSpec.PurgeKeepsSuffix | hh/queue.go:193-224 | a purge drops exactly the maximal leading run of stale segments, leaves a suffix of the pending entries and at least one segment |
| QueueSpec.CutoffIsFullSecond | hh/queue.go:201-201 | the cutoff is the last full second not after the given time |
| QueueSpec.AppendKeepsAlignment | hh/queue.go:786-795 | the cached head length stays right after an append if and only if no non-empty entry is put behind an empty head entry |
| QueueSpec.EmptyEntryMisaligns | hh/queue.go:788-790 | an empty entry followed by a non-empty one leaves a wrong cached length |
| QueueSpec.AppendInv | hh/queue.go:384-406 | an append of a non-empty entry keeps the queue invariant: at least one segment, right sizes and cached lengths up to clipping, non-empty entries within the segment maximum, and the size bounds |
| QueueSpec.AdvanceInv | hh/queue.go:432-470 | an advance keeps the queue invariant |
| QueueSpec.PurgeInv | hh/queue.go:193-224 | a purge keeps the queue invariant |
| QueueSpec.RunInv | hh/queue.go:384-470 | every run of append, current, advance and purge from a state with the queue invariant keeps it |
| QueueSpec.DiskBound | hh/queue.go:269-275 | over every run from a fresh queue the files take at most 16 bytes more than the queue maximum, and no file more than 8 over the segment maximum |
| QueueSpec.DiskBoundIsReached | hh/queue.go:392-405 | the bound of 16 bytes over the maximum is reached |
| QueueSpec.DiskBoundReopened | hh/queue.go:269-275 | over every run from any queue, also one that was reopened, the files take at most 16 bytes more than the queue maximum and 8 more for each segment whose size is clipped |
| QueueSpec.AppendKeepsMaxExactly | hh/queue.go:384-406 | an append keeps the files within the queue maximum if and only if it is refused, fits the tail with its length, fits a new segment with its length and a footer, or is too large and an empty segment fits |
| QueueSpec.AppendKeepsFilesExactly | hh/queue.go:756-758 | an append keeps every file within the segment maximum if and only if it is not written or its file has room for its length as well |
| QueueSpec.AtFooterExactly | hh/queue.go:896-899 | the test for the end of a segment holds if and only if the segment is exhausted and its size is not clipped |
| QueueSpec.HeadReads | hh/queue.go:810-832 | no length at the head of a segment is out of range, also where the footer is taken for one |
| Segment.AppendLayout | hh/queue.go:748-796 | the three writes of an append turn a well-formed file into the well-formed file with one block more |
| Segment.AdvanceLayout | hh/queue.go:887-931 | rewriting the footer gives the file whose head has moved over the first unread block |
| Segment.HeadBlock | hh/queue.go:806-835 | the bytes at the head offset are the length and body of the first unread entry |
| Segment.OpenRestoresExactly | hh/queue.go:507-603 | opening a well-formed file restores head offset, size and cached length if and only if the file is no longer than the segment maximum |
| Segment.OpenAcceptsExactly | hh/queue.go:565-621 | any file whose head offset points to a number before the footer is taken as it is if and only if that many bytes can be read behind the number, counting the footer, and the number is within the size; otherwise it is repaired |
| Segment.OpenClips | hh/queue.go:525-603 | a file that is at most 8 bytes too long is opened with its size clipped and the rest of its header right; it is repaired if and only if it is exhausted |
| Segment.Segment.constructor | hh/queue.go:507-545 | a new file is a footer alone and shows an empty segment |
| Segment.Segment.Open | hh/queue.go:547-603 | opening restores exactly the entries read and unread that the file holds, with the size clipped if it is over the maximum |
| Segment.Segment.Repair | hh/queue.go:681-745 | repairing an exhausted file overwrites the length of its first block, which was read, and leaves the rest |
| Segment.Segment.Append | hh/queue.go:748-796 | an entry that fits becomes the last unread one, any other leaves the segment as it was |
| Segment.Segment.Current | hh/queue.go:806-835 | returns the first unread entry; end of file at the footer, and behind the last entry of a segment whose size is clipped, where the footer is taken for a length |
| Segment.Segment.Advance | hh/queue.go:887-931 | the first unread entry becomes the last read one, the head lands on a block boundary if and only if the cached length was right, and the end is answered exactly where the test for it holds; past the end of a segment whose size is clipped the head leaves the file |
| Segment.Segment.Close | hh/queue.go:940-948 | closing keeps the contents of the file |
| SegmentList.ReadOne | hh/queue.go:806-835 | within the invariant reading gives the first unread entry, or the end if there is none, also if the size is clipped |
| SegmentList.AdvanceOne | hh/queue.go:887-931 | within the invariant an advance passes exactly the first unread entry, and answers the end unless that was the last entry of a segment whose size is clipped |
| Queue.Queue.constructor | hh/queue.go:97-106 | a new queue is closed and empty |
| Queue.Queue.Open | hh/queue.go:114-142 | opens all files, also those over the segment maximum; the segments come back in descending order of ID, an empty directory gets a segment, an exhausted head is trimmed |
| Queue.Queue.LoadSegments | hh/queue.go:295-339 | the loaded segments are exactly the files of the directory, sorted by descending ID, each with its entries |
| Queue.Queue.Close | hh/queue.go:145-158 | the closed queue has every entry still on disk, and closing it again changes nothing |
| Queue.Queue.Append | hh/queue.go:384-406 | the new state and result are those of the append on the sequence of entries, including the full-queue and full-segment errors |
| Queue.Queue.Current | hh/queue.go:409-417 | the result is the oldest entry of the head segment or end of file, and only the cached length of an exhausted head whose size is clipped changes |
| Queue.Queue.Advance | hh/queue.go:432-447 | the new state is that of the advance on the sequence of entries |
| Queue.Queue.TrimHead | hh/queue.go:449-470 | an exhausted head is replaced or dropped, head and tail stay at the ends of the list |
| Queue.Queue.PurgeOlderThan | hh/queue.go:193-224 | terminates with exactly the leading stale segments dropped and head and tail at the ends of the list |
| Queue.Queue.AddSegment | hh/queue.go:278-292 | one fresh segment at the end, numbered above all others |
| Queue.Queue.AppendToNew | hh/queue.go:398-403 | a full tail gets a successor, and the entry goes there if it fits an empty segment |
| Queue.Queue.NextSegmentID | hh/queue.go:342-367 | one more than the largest segment number |
| Queue.Queue.DiskUsage | hh/queue.go:269-275 | the sum of the sizes that the segment objects keep |
| SegmentList.SortByIDSorted | hh/queue.go:93-93 | sorting gives a permutation of the segments in descending order of ID |
| Reopen.ReopenConserves | hh/queue.go:114-158 | closing and opening conserves the pending entries as a multiset, whatever the order of segments |
| Reopen.ReopenKeepsOrder | hh/queue.go:295-339 | if the segments with unread entries are in descending order of ID, closing and opening keeps the exact sequence |
| Reopen.ReopenReverses | hh/queue.go:93-93 | a queue whose segments were in ascending order comes back with its segments reversed |
| Reopen.RunAscends | hh/queue.go:278-292 | every run from a fresh queue keeps its segments in ascending order of ID |
| Reopen.ReopenOrderExactly | hh/queue.go:295-339 | for every queue with distinct segment IDs and pairwise different entries, opening keeps their order if and only if the segments with unread entries are in descending order of ID |
| Reopen.FirstReopenExactly | hh/queue.go:114-142 | after every run from a fresh queue, opening reverses the segments, and keeps the order of different entries if and only if at most one segment has any |
| Reopen.TwoEntriesSwap | hh/queue.go:30-40 | two entries of ten bytes at a segment maximum of thirty come back in the other order |
| Reopen.WithSegmentInv | hh/queue.go:114-142 | closing and opening keeps the queue invariant |
| Reopen.ClippedUsageIsReached | hh/queue.go:525-534 | two files over the segment maximum are counted short after a reopen, and an append then takes the files 32 bytes over the queue maximum |
| Handoff.MarshalWrite | hh/node_processor.go:390-398 | the record is the shard ID in 8 bytes and one line per point |
| Handoff.MarshalRoundTrip | hh/node_processor.go:390-407 | a record is never empty and gives back its shard ID and text; cut as it is parsed, the text gives back the points if and only if each of them survives |
| PointText.ScanLine | vendor/github.com/influxdata/influxdb/models/points.go:972-1022 | a line ends at the first newline that is neither quoted nor escaped, or with the text |
| PointText.CutLines | vendor/github.com/influxdata/influxdb/models/points.go:256-301 | the texts parsed as points are the lines that are neither blank nor comments, without leading blanks and a newline at the end |
| PointText.PointsComeBackExactly | vendor/github.com/influxdata/influxdb/models/points.go:256-301 | cutting the lines of some points gives the points back if and only if each starts with neither a blank nor a hash, does not end in a newline and its line ends with it; the last one may also leave its line open |
| PointText.CutIsShorter | vendor/github.com/influxdata/influxdb/models/points.go:256-301 | a text that ends in a newline gives lines of no greater total length |
| PointText.LineEndAnywhere | vendor/github.com/influxdata/influxdb/models/points.go:972-1022 | where a line ends depends on the line alone |
| PointText.HashIsLost | vendor/github.com/influxdata/influxdb/models/points.go:279-281 | a point whose text starts with a hash is not given back |
| PointText.QuotedNewlineComesBack | vendor/github.com/influxdata/influxdb/models/points.go:1000-1011 | points with a newline in a quoted field are given back |
| PointText.StrayQuotes | vendor/github.com/influxdata/influxdb/models/points.go:1000-1011 | a quote behind a comma, or before the fields, does not keep a line open |
| LineProtocol.RenderedPointSurvives | vendor/github.com/influxdata/influxdb/models/points.go:1420-1439 | the line of every well-formed point ends where the point does, however many fields it has and whatever the quoted ones hold; so the point survives if and only if it starts with neither a blank nor a hash and does not end in a newline |
| LineProtocol.RenderedWriteComesBack | vendor/github.com/influxdata/influxdb/models/points.go:256-301 | a write of such points gives them all back |
| LineProtocol.EndsExactly | vendor/github.com/influxdata/influxdb/models/points.go:972-1022 | a line ends with its text if and only if no line ends within it and no quote is left open |
| Handoff.DeliveredInOrderAtLeastOnce | hh/node_processor.go:248-354 | in every state of every interleaving, starting on any contents of the queue, what was there and appended is what was moved past followed by what is pending, deliveries follow that order and cover all that was moved past and not purged, and without a purge nothing is purged |
| Handoff.SendWriteIsRun | hh/node_processor.go:299-354 | a call of SendWrite, as `NodeProcessor.SendWrite` states it, is a run of at most three steps of the sender, and delivers the head entry once or not at all |
| Handoff.DeliveredWrites | hh/node_processor.go:313-330 | in every interleaving in which writes are queued, each delivery is the shard ID and text of one of them, and deliveries go through them in order |
| Handoff.AppendKeepsCurrent | hh/node_processor.go:198-235 | a writer never changes the entry the sender holds |
| Handoff.BlockedForever | hh/node_processor.go:299-318 | with an exhausted head and segments behind it, no run of writers and sender delivers or advances again before a purge |
| Handoff.AppendBlocksExactly | hh/queue.go:398-403 | an append enters that state if and only if the only segment is exhausted, the queue has room, and the segment has not |
| Handoff.AdvanceBlocksExactly | hh/queue.go:449-470 | an advance enters that state if and only if it exhausts a head with segments behind it, and the size of the head is clipped or the next segment has nothing unread and a third one follows |
| Handoff.OpenBlocksExactly | hh/queue.go:114-142 | opening leads into that state if and only if the two segments with the highest IDs are exhausted and a third one follows, and out of it in every other case |
| Handoff.FirstOpenBlocksExactly | hh/queue.go:295-339 | for a queue that was never reopened these are its last two segments |
| Handoff.PurgeBlocksExactly | hh/queue.go:193-224 | a purge leads into that state if and only if the first kept segment is exhausted and another follows; it leads out of it if and only if it drops a segment and what it keeps is one segment or starts with an unread entry |
| Handoff.OpenBlocksInput | hh/queue.go:398-403 | two oversized appends leave a queue that opening blocks with an entry pending |
| Handoff.BlockedIsReachable | hh/queue.go:452-456 | that state is reached with an entry pending |
| Handoff.BlockedExactly | hh/queue.go:806-812 | while something is pending, Current finds nothing if and only if the sender is in that state |
| Handoff.DrainsExactly | hh/node_processor.go:268-291 | as many acknowledged rounds as entries are pending, or more, deliver them all if and only if no segment that is exhausted or has a clipped size lies before an unread entry; fewer never do |
| Handoff.OpenDrainsExactly | hh/queue.go:114-142 | after opening they do if and only if no file over the segment maximum lies before an unread entry, and no exhausted one but the first |
| Handoff.ClippedHeadStops | hh/queue.go:525-534 | two entries of 12 bytes at a segment maximum of 20: after a reopen one is delivered and the other never |
| SenderReach.NoFurther | hh/node_processor.go:268-354 | if a segment that stops the sender lies before an unread entry, every state of every run of writers and sender before a purge has moved past no more than the entries up to that segment, and never all that was pending |
| SenderReach.AllTheWay | hh/node_processor.go:268-354 | from every state between two rounds there is a run that delivers exactly those entries, each once and in order |
| SenderReach.ReachesAllExactly | hh/node_processor.go:268-291 | they are all that is pending if and only if no such segment lies before an unread entry |
| SenderReach.RoundIsThreeSteps | hh/node_processor.go:299-354 | with an entry at the head, reading, an acknowledged send and an advance are possible one after the other, and deliver that entry |
| NodeProcessor.NodeProcessor.WriteShard | hh/node_processor.go:198-235 | an open processor appends exactly the record of the shard and its points; a closed one and one with a closed queue change nothing |
| NodeProcessor.NodeProcessor.SendWrite | hh/node_processor.go:299-354 | the oldest record is what is sent, the queue moves past it if and only if it was sent and acknowledged, and on a closed queue nothing is sent |
| Reassign.NewShardOwner | vendor/github.com/influxdata/influxdb/services/meta/data.go:57-77 | some node with the fewest shards, none if and only if there is no candidate, and the map counts one more for it |
| Reassign.StripGroup | meta/data.go:343-408 | never fails; a group without an owner left is marked deleted; otherwise every orphan gets one owner that owned a shard of the group, and no receiver ends with more than one shard above another candidate |
| Reassign.RelinquishAll | meta/data.go:353-377 | every shard loses the node, the frequency map is the true number of shards of every node, the orphans are listed in order |
| Reassign.AssignOrphans | meta/data.go:390-405 | there is always a candidate, owned shards are untouched, the frequency map stays true, and the loads of receivers stay within one |
| Reassign.KeptCount | meta/data.go:353-372 | taking a node out changes the shard count of that node only |
| Placement.GeneratedShards | meta/data.go:522-538 | shards are numbered on from the counter and the nodes dealt out round robin from the index modulo the node count |
| Placement.PlacedOnce | meta/data.go:529-537 | no node is dealt out twice in a group |
| Placement.PlacementSpreads | meta/data.go:522-538 | every shard has exactly the replication factor of different data nodes, and no node owns two shards of the group |
| Placement.ShardCount | meta/data.go:486-497 | the replication factor is that of the policy, one if it is zero, the number of nodes if it is larger; there are as many shards as it leaves room for, at least one |
| Placement.DealtInTurn | meta/data.go:529-537 | replica j of shard i is on the node that many places behind the log index, cyclically |
| ShardGroups.LiveGroupsDisjoint | meta/data.go:499-514 | of two live groups of a policy the earlier one ends before the later one starts |
| ShardGroups.InsertAt | vendor/github.com/influxdata/influxdb/services/meta/data.go:1210-1226 | appending and sorting puts the group before the first one that ends later, or ends at the same time and starts later, and moves no other |
| ShardGroups.NewGroupKeepsTimes | meta/data.go:481-514 | a new group keeps the groups of its policy on the grid, in order, and the live ones apart |
| MetaInvariant.GroupShardsDistinct | meta/data.go:522-527 | shard IDs within a group differ |
| MetaInvariant.InsertSorted | meta/data.go:142-150 | appending a node and sorting by ID keeps the list sorted, and without repeated IDs if the ID is new |
| MetaMachine.StrippedOK | meta/data.go:343-408 | after a node is taken out, owners are different current nodes without it, and a group is live only if each of its shards has an owner |
| MetaMachine.DatabasesStrippedIdents | meta/data.go:343-408 | deleting a node changes no group ID and no shard ID |
| MetaRuns.NewGroupSpreads | meta/data.go:486-514 | in every state of the invariant with data nodes each shard of a new group has as many different owners as the policy asks for, one if it asks for none and all nodes if for more, there are node count over owners shards, and no node owns two |
| MetaRuns.NewGroupPlaced | meta/data.go:499-540 | a new group is the slot of its time, its number and those of its shards follow the last ones given out, and its shards go to the nodes in turn from the log index on |
| MetaRuns.AssignedIdentity | meta/data.go:126-141 | the ID given to a host is the one every listed entry of that host has, or a new one |
| MetaRuns.CreateMetaNodeGood | meta/data.go:117-153 | creating a meta node keeps the invariant and gives out no ID twice |
| MetaRuns.CreateDataNodeGood | meta/data.go:275-308 | creating a data node keeps the invariant and gives out no ID twice |
| MetaRuns.DeleteDataNodeGood | meta/data.go:327-411 | deleting a data node keeps the invariant |
| MetaRuns.DeleteMetaNodeGood | meta/data.go:179-262 | deleting a meta node, which also strips shards, keeps the invariant |
| MetaRuns.CreateShardGroupGood | meta/data.go:467-516 | creating a shard group keeps the invariant and numbers it beyond everything given out |
| MetaRuns.DeleteShardGroupGood | meta/store_fsm.go:261-273 | deleting a shard group keeps the invariant |
| MetaRuns.CreateSubscriptionGood | vendor/github.com/influxdata/influxdb/services/meta/data.go:500-529 | creating a subscription keeps the invariant, and no two policies share an array |
| MetaRuns.DropSubscriptionGood | vendor/github.com/influxdata/influxdb/services/meta/data.go:532-547 | dropping a subscription keeps the invariant |
| MetaRuns.AppliedGood | meta/store_fsm.go:19-95 | every log entry, failed or not, that brings no shard groups along keeps the invariant and reuses no ID |
| MetaRuns.EffectKeepsTerm | meta/store_fsm.go:86-88 | no command touches term or index, and a failed one touches nothing |
| MetaEffects.CreateDatabaseExactly | vendor/github.com/influxdata/influxdb/services/meta/data.go:103-114 | a name is required; a database that is not there is added at the end without policies, and otherwise nothing changes |
| MetaEffects.CreateDatabaseCommandExactly | meta/store_fsm.go:118-160 | creating a database adds it at the end, with the policy that is given, one made for it, or none |
| MetaEffects.CreateDatabaseAgain | meta/store_fsm.go:118-160 | creating one that is there creates the policy in it and makes it the default |
| MetaEffects.AutoPolicyIs | meta/store_fsm.go:139-156 | the policy made for a database keeps points for ever on as many nodes as there are, at least one and at most three |
| MetaEffects.DropDatabaseExactly | meta/store_fsm.go:162-174 | dropping a database takes the first one of that name away and nothing else |
| MetaEffects.CreatePolicyExactly | vendor/github.com/influxdata/influxdb/services/meta/data.go:150-194 | creating a policy adds exactly the policy asked for, at the end, if the request is sound and the name free; nothing else changes |
| MetaEffects.GroupDurationTable | vendor/github.com/influxdata/influxdb/services/meta/data.go:1163-1184 | the group duration of a new policy, for every requested one and every duration |
| MetaEffects.DropPolicyExactly | meta/store_fsm.go:193-205 | dropping a policy takes the first one of that name away; its database keeps its default and everything else |
| MetaEffects.UpdatePolicyExactly | vendor/github.com/influxdata/influxdb/services/meta/data.go:237-284 | each error of an update has its condition; otherwise exactly the fields given are set, and nothing else changes |
| MetaEffects.CreateShardGroupExactly | meta/data.go:467-516 | without data nodes or with the time covered nothing changes; otherwise one policy has one group more and the counters move on, and nothing else changes |
| MetaEffects.DeleteShardGroupExactly | vendor/github.com/influxdata/influxdb/services/meta/data.go:416-433 | deleting a shard group marks the first group of the policy with that ID, and every other group, policy, database and field stays |
| MetaEffects.DeleteShardGroupFails | vendor/github.com/influxdata/influxdb/services/meta/data.go:416-433 | it fails if and only if the policy has no group with that ID |
| MetaEffects.DeletedGroupIsGone | vendor/github.com/influxdata/influxdb/services/meta/data.go:416-433 | in every state of the invariant, no group is found afterwards for a time that the group covered |
| MetaEffects.CreateSubscriptionExactly | vendor/github.com/influxdata/influxdb/services/meta/data.go:500-529 | each error has its condition; otherwise the policy shows one subscription more at the end |
| MetaEffects.DropSubscriptionExactly | vendor/github.com/influxdata/influxdb/services/meta/data.go:532-547 | the first subscription of that name is taken out of what the policy shows |
| MetaEffects.DropSubscriptionFails | vendor/github.com/influxdata/influxdb/services/meta/data.go:532-547 | it fails if and only if the policy shows none of that name |
| MetaEffects.MissingDatabase | meta/store_fsm.go:118-330 | on a database that is not there a drop does nothing and every other command on a policy fails |
| MetaEffects.MissingPolicy | meta/store_fsm.go:176-330 | the same on a policy that is not there |
| MetaEffects.NothingChanges | meta/store_fsm.go:207-221 | setting the default policy and adding a shard owner change nothing; nor does a command on users or continuous queries |
| MetaEffects.CreateMetaNodeExactly | meta/store_fsm.go:407-421 | one entry more unless the host is a data node, with the ID of the host or the next one; a cluster without an ID gets one; nothing else changes |
| MetaEffects.CreateDataNodeExactly | meta/data.go:275-308 | one entry more unless the host is a data node, with the ID of the host or the next one; nothing else changes |
| MetaEffects.DeleteDataNodeExactly | meta/data.go:327-411 | fails if and only if there is no such node; otherwise the other data nodes stay in order, every group loses the node, and nothing else changes |
| MetaEffects.DeleteMetaNodeExactly | meta/data.go:179-262 | the same for a meta node that has left the consensus group |
| MetaEffects.StrippedGroup | meta/data.go:343-408 | times and numbers of a group stay, and it is marked as deleted if and only if it was or no shard has another owner |
| MetaEffects.StrippedShard | meta/data.go:353-377 | a shard with another owner keeps exactly its other owners |
| MetaEffects.StrippedOrphan | meta/data.go:379-408 | a shard without another owner gets one that owned a shard of the group, if there is any |
| MetaRuns.RunInvariant | meta/store_fsm.go:19-95 | every state of every run without carried groups: owners are different current data nodes, live groups have shards and their shards owners, live groups of a policy are sorted and apart, IDs and array addresses are unique, equal node IDs mean equal hosts |
| MetaRuns.CreatePolicyKeepsExactly | vendor/github.com/influxdata/influxdb/services/meta/data.go:150-194 | a command that adds a policy keeps the invariant if and only if the groups it carries have different current owners, lie on the grid, and have IDs that were given out and are not in use |
| MetaRuns.AppliedKeepsExactly | meta/store_fsm.go:19-95 | a log entry of any kind keeps the invariant if and only if the policy that it adds, if any, brings nothing along that cannot be taken over |
| MetaRuns.RunInvariantExactly | meta/store_fsm.go:19-95 | every run, with carried groups or not: the invariant holds up to an entry if and only if every policy added before could be taken over |
| MetaRuns.CarriedGroupBreaks | vendor/github.com/influxdata/influxdb/services/meta/data.go:1119-1124 | a policy that carries a group breaks the invariant |
| MetaRuns.ExistingPolicyErrors | meta/store_fsm.go:128-138 | creating a database with a policy it has with other parameters reports that it exists, if and only if; a conflict is reported if and only if it has it with the same parameters and not as its default |
| MetaRuns.NeverReused | meta/data.go:499-527 | a group ID, shard ID, node ID or array address that was given out and is gone never comes back in a run without carried groups |
| MetaRuns.ClusterIDFixed | meta/store_fsm.go:407-421 | once set, the cluster ID never changes in a run |
| MetaRuns.CreatedGroupCovers | meta/data.go:467-516 | with a data node and a known policy, creation succeeds, a live group covers the timestamp afterwards, and creating again changes nothing |
| MetaRuns.CreateFailsExactly | meta/data.go:468-480 | creation fails if and only if there is a data node and the names are unknown; without data nodes nothing happens |
| Snapshots.AppendSubOK | vendor/github.com/influxdata/influxdb/services/meta/data.go:521-527 | appending gives the slice with one element more and no name twice, and changes no other array |
| Snapshots.CutOutOK | vendor/github.com/influxdata/influxdb/services/meta/data.go:540-545 | cutting out gives the slice without that element, and changes no other array |
| Snapshots.RunSubs | meta/store_fsm.go:303-329 | in every state of every run each slice lies in its array and has no name twice |
| Snapshots.StepExactly | meta/store_fsm.go:303-329 | an entry changes what a copy shows if and only if it drops an element the copy shows that is not the last of the current list in the same array, or appends another one over an element the copy still shows |
| Snapshots.CopyUnchangedExactly | meta/store_fsm.go:540-546 | over every run, a copy handed out shows the same in every later state up to some point if and only if no entry in between is of that kind |
| Snapshots.NoDropNoChange | vendor/github.com/influxdata/influxdb/services/meta/data.go:1134-1145 | over every run without dropped subscriptions a copy handed out shows the same |
| Snapshots.SubscribedIsReachable | vendor/github.com/influxdata/influxdb/services/meta/data.go:1125-1130 | one command leads from a new store to the state of the next two inputs |
| Snapshots.DropShowsTwice | vendor/github.com/influxdata/influxdb/services/meta/data.go:540-543 | after the first of two subscriptions is dropped, a copy handed out before shows the second one twice |
| Snapshots.CreateShowsThrough | vendor/github.com/influxdata/influxdb/services/meta/data.go:521-527 | after the last one is dropped and another created, the copy shows the new one |
| MetaStore.StripDatabases | meta/data.go:343-408 | the loops over all databases, policies and groups take the node out of every group and never stop part way |
| MetaStore.MetaData.Clone | meta/data.go:42-65 | a new object with the same fields that points into the same arrays |
| MetaStore.MetaData.CreateMetaNode | meta/data.go:117-153 | the list gains exactly the new node at its place, or a data node has the host and nothing changes |
| MetaStore.MetaData.CreateDataNode | meta/data.go:275-308 | the list gains exactly the new node at its place, or a data node has the host and nothing changes |
| MetaStore.MetaData.DeleteDataNode | meta/data.go:327-411 | fails only for an unknown node and then changes nothing; otherwise the node is gone from the list and from every shard |
| MetaStore.MetaData.DeleteMetaNode | meta/data.go:179-262 | the same for a meta node and the shards of its ID |
| MetaStore.MetaData.CreateShardGroup | meta/data.go:467-516 | the policy gains exactly the new group at its place and the counters move by it, or nothing changes |
| MetaStore.Memory.MoveDown | vendor/github.com/influxdata/influxdb/services/meta/data.go:540-543 | the elements behind one move down by one in place, the last one stays behind, and no other array changes |
| MetaStore.Memory.Append | vendor/github.com/influxdata/influxdb/services/meta/data.go:521-527 | in place if the array has room, else into a new array with the old elements and the new one |
| MetaStore.MetaData.CreateSubscription | vendor/github.com/influxdata/influxdb/services/meta/data.go:500-529 | the policy's list gains the subscription, or nothing changes and the error says why |
| MetaStore.MetaData.DropSubscription | vendor/github.com/influxdata/influxdb/services/meta/data.go:532-547 | the policy's list loses the subscription, or nothing changes and the error says why |
| MetaStore.Store.constructor | meta/store.go:59-84 | a new store is empty at index one |
| MetaStore.Store.Apply | meta/store_fsm.go:19-95 | a failed command, and one that adds a shard owner, keeps the object and changes only its term and index; any other swaps in a new object and leaves the fields of the old one entirely alone; memory is shared |
| MetaStore.Store.ApplyAll | meta/store_fsm.go:19-95 | over any later run, an object handed out before keeps its fields but for term and index and shows the subscriptions that are in memory then; it is still the current one if and only if every entry failed or added a shard owner |
| MetaStore.Replay | meta/store_fsm.go:19-95 | a new store fed any log without carried groups goes through a run of the state machine and ends in its invariant |
| UpdateProtocol.RunInv | meta/client.go:1158-1190 | every reachable state of client, calls, poller and servers satisfies the protocol invariant |
| UpdateProtocol.ReadYourWrites | meta/client.go:1050-1114 | whenever a call returns success, the cache reflects the caller's own entry and every entry up to the index it was given, with any number of servers |
| UpdateProtocol.NoLostWakeUp | meta/client.go:1158-1169 | a call asleep on the open channel needs a later index than the cache has, and a poll held on a server's open channel a later one than that server has |
| UpdateProtocol.IncreaseWakesAll | meta/client.go:1180-1188 | every increase of the cached index wakes every sleeping call, every applied entry wakes the poll its server holds |
| UpdateProtocol.SleepsUntilIncrease | meta/client.go:1158-1169 | in every run a call asleep on the open channel stays asleep, and cannot be woken, for as long as the cached index does not rise |
| UpdateProtocol.EachPollRaises | meta/store.go:373-385 | while every asked server has reached the cache, each update strictly raises the cached index |
| UpdateProtocol.CacheMonotone | meta/client.go:1171-1190 | in such a run the cached index never falls |
| UpdateProtocol.OneServerCaughtUp | meta/handler.go:243-278 | with one server every run is such a run |
| PollAnswers.AnswerRaisesExactly | meta/client.go:1171-1190 | once a server is asked, the update that follows raises the cached index in every continuation of the run with that server, if and only if the server has applied at least what the cache has |
| PollAnswers.LaggingLowers | meta/store.go:373-385 | if it lags by more than one entry, there is a continuation that lowers the index |
| PollAnswers.LaggingServerMovesBack | meta/client.go:1260-1283 | a run with two servers in which a call returns with its entry in the cache and the cache then loses it |
| Returns.ReturnsExactly | meta/client.go:1050-1169 | in every reachable state, whatever servers, poller and other calls are at, a call can come to return success if and only if it has not given up |
| Returns.OnlyFailEnds | meta/client.go:1094-1114 | the only step that takes this away is the call giving up |
| Returns.FailsExactly | meta/client.go:1094-1169 | a call can come to give up if and only if it has no answer yet |
| Returns.PollerComesBack | meta/client.go:1171-1190 | from every such state the poller can come to ask anew |
| Retry.RetryUntilExec | meta/client.go:1050-1114 | at most eleven tries; each goes to the address of a redirect or to the server whose turn it is; only a redirect or no answer leads to another try, and the outcome is that of the last one |
| Retry.NextServer | meta/client.go:1071-1092 | between two tries that follow no redirect the list is gone through by as many servers as there were tries, and starts again behind its end |
| Retry.NeighbouringServers | meta/client.go:1075-1092 | neighbouring tries that follow no redirect go to neighbouring servers, cyclically |
| Retry.PostedInTurn | meta/client.go:1075-1102 | without redirects try k goes to server k, cyclically, and a list of no more servers than tries is tried to the end |
| PointsWriter.BisectionFinds | cluster/points_writer.go:223-231 | on sorted groups that do not overlap, bisection agrees with a linear scan, and the group found is the only one |
| PointsWriter.AppendKeeps | cluster/points_writer.go:234-238 | appending the group of a time not covered keeps the list sorted and apart |
| PointsWriter.LiveGroupIsSlot | meta/client.go:767-790 | the group the metadata finds for a time is the slot of that time and has shards |
| PointsWriter.CollectGroups | cluster/points_writer.go:161-184 | if the answers are slots of one duration, the list has a group for a time if and only if a point within the limit lies in its slot; an error is the failed answer to such a point |
| PointsWriter.ShardMapping.constructor | cluster/points_writer.go:94-100 | an empty mapping |
| PointsWriter.ShardMapping.MapPoint | cluster/points_writer.go:103-109 | the list of one shard gains exactly that point at its end, no other list changes, and the capacity reset loses nothing |
| PointsWriter.MapPoints | cluster/points_writer.go:186-200 | every shard gets exactly its points in the order of the request |
| PointsWriter.MapShards | cluster/points_writer.go:153-201 | both passes together, for all answers, with the errors for a failed lookup and a missing policy |
| PointsWriter.MappedExactly | cluster/points_writer.go:160-200 | a point is mapped if and only if some point of the batch within the limit lies in its slot; it goes to the shard at its hash modulo the number of shards of the one group that contains its time |
| PointsWriter.AssignedByHash | vendor/github.com/influxdata/influxdb/services/meta/data.go:1263-1265 | the shard of a point is the one at its hash modulo the number of shards in the group that contains its time |
| PointsWriter.EveryShardSelected | vendor/github.com/influxdata/influxdb/services/meta/data.go:1263-1265 | every shard of a group is selected by some hash |
| PointsWriter.TooOldExactly | cluster/points_writer.go:162-165 | a point is too old if and only if the policy keeps points for a limited time and the point is older |
| PointsWriter.OldPointIsMapped | cluster/points_writer.go:186-192 | with slots of ten hours and the limit at five, a point at three hours is mapped because of one at seven |
| PointsWriter.MappedOnce | cluster/points_writer.go:186-199 | each point lengthens the list of its own shard by itself, behind the earlier points of that shard, and no other list |
| PointsWriter.ListIsPositions | cluster/points_writer.go:186-199 | the list of a shard is the points at its positions of the batch, in order |
| PointsWriter.EachPositionOnce | cluster/points_writer.go:186-199 | over the lists of all shards together each mapped position occurs exactly once, in the list of its shard, and no other position occurs |
| ShardWrite.OneResultEach | cluster/points_writer.go:303-340 | an owner sends exactly one result, and acknowledges if and only if its write succeeded or, at level Any, was queued |
| ShardWrite.RemoteErrorsExactly | cluster/points_writer.go:321-345 | an error about a field type conflict is reported as it is; every other remote error is queued, and counts as done only at level Any with the queue accepting it |
| ShardWrite.ChannelHasRoom | cluster/points_writer.go:300-342 | all owners together send as many results as the channel has room for, each its own report once |
| ShardWrite.DeliveredFromChannel | cluster/points_writer.go:344-356 | whatever is taken from the channel is each owner's own report, at most once |
| ShardWrite.WriteToShard | cluster/points_writer.go:285-387 | the outcome is decided by the acknowledgements before the first interruption, then by the interruption, then by whether any write succeeded, then by the first error |
| ShardWrite.OutcomeExactly | cluster/points_writer.go:287-390 | the outcome of every sequence of events: success if and only if there is an owner and before the first interruption one owner has acknowledged (Any, One), more than half (Quorum) or all (All); otherwise what interrupted, partial with some acknowledgement, or the first error |
| ShardWrite.SuccessMeansAcknowledged | cluster/points_writer.go:370-374 | success means that as many different owners as the level asks for, and not one more, had acknowledged, each of which reports success |
| ShardWrite.AllMeansEveryone | cluster/points_writer.go:287-293 | when success at level All is reported, every owner has acknowledged |
| ShardWrite.QuorumWritesShareANode | cluster/points_writer.go:287-293 | two quorum writes to the same owners that reported success had been acknowledged by a common owner when they did |
| ShardWrite.OrderDoesNotMatter | cluster/points_writer.go:344-387 | when every result arrives, success, partial success or failure depends only on how many owners acknowledge, not on the order |
| ShardWrite.NoOwnersFail | cluster/points_writer.go:344-387 | a shard without owners fails at every level |
| ReadBack.GentleCovered | meta/store_fsm.go:118-329 | a command that takes no policy, group or node away leaves a covered time covered |
| ReadBack.ReadFindsExactly | meta/client.go:782-789 | a read of the cache in any later state finds the created group if and only if the cache has the entry then, if nothing behind it takes something away and the time was not covered before |
| ReadBack.CreatedGroupIsReadBack | meta/client.go:767-790 | while every asked server has reached the cache, a client that created a shard group finds it at any later time: live, with shards, the slot of its time |
| ReadBack.ReadBackWithOneServer | meta/client.go:767-790 | so it always does with one server |
| ReadBack.LaggingReadFindsNothing | meta/client.go:782-789 | a run with two servers in which the call has returned and the read finds no group |

## Left out

- Queue.Queue.Append: the queue invariant is kept for non-empty entries only; `AppendKeepsAlignment` states what an empty entry does, and the one caller never appends one.
- Queue.Queue.Open: takes a segment maximum of at least a footer, if there are files, and files at most 8 bytes over it, as every run leaves them.
- Queue.Queue.LoadSegments: the same.
- Segment.Segment.Open: the same, for one file.
- Segment.Segment.Repair: covers the call of repair on an exhausted file; the others, on malformed files, are not modelled.
- Queue.Queue.PurgeOlderThan: takes a cutoff not later than the present, without which the loop need not end.
- NodeProcessor.NodeProcessor.WriteShard: on a closed queue the source waits for the processor to close before it returns; the wait is not modelled.
- Reassign.StripGroup: takes a group whose shard IDs and owners are distinct, as they are in every state of the state machine.
- MetaStore.StripDatabases: the same, for all groups.
- MetaStore.MetaData.DeleteDataNode: takes states of the state machine, where shard IDs and owners are distinct.
- MetaStore.MetaData.DeleteMetaNode: the same.
- PointsWriter.MapShards: takes groups that have shards, on which the source would otherwise divide by zero; which points are mapped is stated for answers that are the slot of the time asked for, as `LiveGroupIsSlot` proves of the metadata.
- PointsWriter.CollectGroups: the same.
- MetaRuns.RunInvariant: takes logs whose policy commands carry no shard groups; `RunInvariantExactly` is about all logs.
- MetaRuns.NeverReused: takes logs whose policy commands carry no shard groups; a carried group may bring an ID back.
- MetaRuns.AppliedGood: the same; `AppliedKeepsExactly` is about all entries.
- MetaStore.Replay: the same, and none of the commands that are left out.
- Snapshots.CopyUnchangedExactly: takes logs whose policy commands carry no shard groups and no subscription name twice.
- ReadBack.ReadFindsExactly: takes logs whose policy commands carry no shard groups.
- ShardWrite.WriteToShard: takes an event for every round of the loop; the timeout makes sure that there is one.
- Retry.RetryUntilExec: takes a non-empty list of servers, without which the source indexes out of range; closing during the wait is not modelled.
- SegmentList.SortByIDSorted: sort.Sort, here and for nodes and groups, is modelled as insertion into a sorted list.
- Malformed segment files, PeekN, and changing the segment maximum of an open queue.
- Crashes, fsync and I/O errors: file operations act on a byte string and always succeed.
- 64-bit overflow of counters, offsets and times.
- Shutdown of node processors and of the hinted-handoff service, and the rate limiter and back-off of the send loop.
- The commands SetData and SetMetaNode and restoring a snapshot: they replace counters or take an ID from outside.
- Users, privileges and continuous queries: their commands change nothing that is modelled, and cloning copies them.
- The choice of NewShardOwner between equally loaded nodes, which follows map iteration order, is left open.
- The deletion time of a group, which is the local clock, is a flag.
- Pending shard owners, adding and removing shard owners, truncating groups: stubs in the source.
- Consensus, joining and leaving, HTTP, protobuf: one totally ordered log is assumed, with indices above that of a fresh store.
- The contents of a cached copy: the update protocol names a copy by the number of log entries it reflects.
- PointText.ScanLine: a lone backslash at the very end of a text, behind which the source steps out of the text, ends the line; a queued text ends in a newline.
- Parsing of a single point: for the points writer a point is a time, a hash and a body, for the queue a text.
- Fan-out of WritePoints over several shards, which only adds a loop around one shard.
