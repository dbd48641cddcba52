# go-p9p: a verified model

go-p9p is a 9P2000 client and server stack. This project models the parts of it where things can go
wrong quietly and proves what they promise, for every input, every run or every interleaving:

| file | models | main results |
|---|---|---|
| `Transport.dfy` | the client loop and tag allocation (`transport.go`) | the wrapping search always finds the first free tag; every request is waiting or has its one value, and a response goes to the request that awaits its tag, whatever the server sends |
| `Serve.dfy` | the server main loop, its handler goroutines, reader and writer (`serveconn.go`) | conservation of requests; which frame follows which request; flush safety and its exact condition |
| `Mux.dfy` | client loop, two wires and server together | one place per tag, no duplicate tag, no panic, no caller forgotten, every caller gets its own answer |
| `Inode.dfy`, `Incidence.dfy` | reference-counted nodes on the heap (`ramfs/inode.go`) | `decref` ends on every graph, keeps the counting invariant, frees exactly what has to be freed and leaves the same graph in whatever order it visits children |
| `Ramfs.dfy` | ramfs handles and the session operations on them (`ramfs/dirent.go`, `ramfs/filesys.go`, `sfilesys.go`) | counts are exact over every run and a node is counted if and only if the root or a handle leads to it; Remove keeps the counts if and only if it finds its own node; walks mean what the names say; releases leave the tree alone; qids identify nodes until 2^64 have been made; the tests' validation accepts the end of every run |
| `FidTable.dfy`, `FidLeak.dfy`, `FidProgress.dfy` | the fid table under concurrent calls (`sfilesys.go`) | no call on a Dirent after its Clunk or Remove; exclusive use; no deadlock; which File a fid has and when it goes stale; when a live Dirent is lost |
| `Path.dfy` | path normalisation (`path.go`) | normal forms are equal if and only if the lists move every deep enough directory alike |
| `Codec.dfy`, `Messages.dfy`, `Encoding.dfy` | the wire encoding of all 27 messages (`encoding.go`, `messages.go`, `fcall.go`) | round trip with any suffix, prefix-freeness, `size9p`, the loops refine the format |
| `Layout.dfy` | section 5 of the Plan 9 manual, as a reference | every message, Qid and Dir by byte offset, and that the encoder writes exactly that |
| `Accepted.dfy` | the decoder and `readmsg` on arbitrary bytes (`encoding.go`, `channel.go`) | exactly which bytes are accepted, and what is refused |
| `Channel.dfy` | framing and truncation (`channel.go`, `ssesssion.go`) | what is sent is what is received; frames fit; streams stay aligned |
| `Readdir.dfy` | directory streaming, both ends and the channels between (`readdir.go`, `cfilesys.go`) | a listing succeeds if and only if msize is at least 23; then the client gets the server's entries in order, all of them if and only if each record fits |
| `Common.dfy` | what the others share | |

`dafny verify dfyconfig.toml` checks everything.

## How the code is modelled

Objects that the source updates in place are classes with the same fields: `FileEnt`, `FServer` (the
file tree together with the fids of all sessions), `Transporter`, `Conn`, `Encoder`, `Decoder`,
`Channel`, `Session` (the two ends of a connection), `Source`, `Readdir`, `OpenDir`. Each method is
proved against a specification function or relation, and the theorems are about those. Goroutines become
step systems: `Serve`, `Mux` and `FidTable` are state machines whose steps are the points where the source
can be interrupted, among them the point where the server has handed a response over and not yet deleted
its tag (serveconn.go:181-188). A run is any finite sequence of steps from the initial state. Integer
widths are written out where they matter: 16-bit tags, string, list and stat lengths, 32-bit sizes and
counts, 64-bit path numbers.

Frames in `Transport`, `Serve` and `Mux` carry an `origin`, the number of the request they belong to.
It is not on the wire and no step looks at it; it is there so that "the answer to its own request" can
be said.

`Inode` states the counting invariant with a *bias*: a node's count is the number of links to it plus
what is held elsewhere. `Decref` needs nothing else, so it also covers cyclic graphs and counts that are
off. `Ramfs` fixes the bias to one per occurrence in a handle's chain and one for the root. A ghost
`level` on each node records how far below the root it was created; entries lead one level down, which
is what makes the tree a tree in the invariant. A ghost `serial` is the node's path number before it is
cut to 64 bits.

## Where the code does not do what one would hope

Each of these is stated with its exact condition, and the first four with a run that gets there.

- **Remove after the name was created again.** `Remove` unlinks by name and then drops a reference of its
  own node. If somebody removed the node and created the name again in between, the new node is unlinked
  and the old one loses a reference too many. The counts stay right if and only if the entry found is the
  handle's own node or is gone (`Ramfs.FServer.Remove`); `Ramfs.NameReuse` is a run where they do not.
- **A late completion.** Completions are matched by tag alone. If a client reuses the tag of a flushed
  request before its handler has ended, the old answer can be sent for the new request. It is sent if and
  only if the loop took it up while another request had the tag (`Serve.FlushedAnsweredIffReused`,
  `Serve.FlushedSentIffReused`, `Serve.EarlyReuseAnswersFlushed`).
- **Walking an open fid in place.** `Walk` with `newfid == fid` replaces the Dirent and clunks the old one,
  and leaves `File` alone: later reads go to a File whose Dirent is gone, if and only if the fid was open
  (`FidTable.StaleIffWalkedOpen`, `FidTable.ReadAfterWalk`).
- **A failing Attach or Walk deletes by fid.** If a Clunk took its entry out of the table and another call
  published the fid again, the other call's entry goes. Its Dirent stays live and no fid names it again.
  Live Dirents stay within reach if and only if this does not happen (`FidLeak.TrackedIffNoForeign`,
  `FidLeak.LostForever`, `FidLeak.LostRun`).
- **A record larger than the buffer.** `Readdir.Read` puts it back and returns nothing, which the client
  takes for the end of the directory (`ReadDirectory.List`).
- **A Tread is never size-checked.** Its frame exceeds msize if and only if msize is below 23
  (`Channels.FrameFitsIff`), and then the peer reports every Tread as too long (`Channels.Deliver`) and
  no directory can be listed (`ReadDirectory.ListDirectory`).
- **Sizes are 32 bits wide.** The size of a well-formed message of 2^32 bytes or more wraps, and if such a
  message passes the msize check its frame does not fit (`Encoding.SizeWraps`, `Channels.FrameFitsIff`).
- **A Tread with msize below 11.** The comment at channel.go:230-233 says the count is then left alone. The
  wrapping subtraction still rewrites the largest counts: the result is always the smaller of the count
  and msize - 11 modulo 2^32 (`Channels.Channel.RewriteCount`). The model follows the code.

- **Path numbers are 64 bits wide.** `next` wraps, so that two nodes have the same qid if and only if their
  numbers are a multiple of 2^64 apart (`Ramfs.QidsIdentify`).
- **Stat records with slack.** The decoder takes a Dir whose length covers more than its fields and ignores
  the rest, and takes any value for the second length of Rstat and Twstat. Those bytes, and the encodings,
  are all it takes (`Accepted.DecodeStatIff`, `Accepted.DecodeIff`).

## Model

| member | source | states |
|---|---|---|
| Transport.AllocateTag | transport.go:107-126 | for every map and hint: an error exactly when 65535 tags are taken, otherwise the first free tag after the hint in cyclic order, never NOTAG; the error after the search is unreachable |
| Transport.NthIsModular | transport.go:114-118 | the order of the search, with its wrap at 2^16 and its skip of NOTAG, is addition modulo 65535 |
| Transport.NthDistinct | transport.go:114-118 | the search meets no tag twice within one round |
| Transport.FirstFreeUnique | transport.go:107-126 | the tag to be returned is determined by the map and the hint |
| Transport.Transporter.constructor | transport.go:129-140 | the loop starts with no outstanding request |
| Transport.Transporter.OnRequest | transport.go:178-197 | the request is registered under the allocated tag and sent, or gets an error and leaves the map as it was |
| Transport.Transporter.OnResponse | transport.go:198-214 | one transition of the client's step system: the response is the value of the request registered under its tag, which is removed; an unknown tag panics |
| Transport.SubmitInv | transport.go:178-197 | handling a request keeps: no NOTAG, requests waiting and requests served all different |
| Transport.ReceiveInv | transport.go:198-214 | handling any response keeps it |
| Transport.RunInv | transport.go:176-216 | it holds in every state of every run, for arbitrary responses |
| Transport.AtMostOneValue | transport.go:60-102 | a request never receives a second value over its response and err channels together, and is no longer registered once it has one |
| Transport.OutstandingIffAwaits | transport.go:178-206 | from the events alone: a tag is registered for a request exactly when that request's frame went out under it and no response with the tag has come since |
| Transport.ResponseReaches | transport.go:198-214 | a response is the next value, and the only new one, of the request whose frame last went out under its tag, and that request is no longer registered; a response nobody awaits panics and does nothing else |
| Transport.RequestOutcome | transport.go:178-197 | a request goes out under a tag nobody awaits, or gets at once the error that 65535 are outstanding, with the search to start over, or that the write failed |
| Transport.WaitingXorServed | transport.go:60-102 | at every later moment of every run a request taken by the loop either waits or has its value, and not both |
| Serve.Conn.constructor | serveconn.go:88-97 | the loop starts with no active tags |
| Serve.Conn.Remove | serveconn.go:76-84 | reports whether the tag was active; then that entry, and no other, is gone and its request counts as flushed |
| Serve.Conn.HandleRequest | serveconn.go:111-172 | duplicate tag, flush of a known or unknown tag and new request, as one transition of the step system |
| Serve.Conn.HandleCompleted | serveconn.go:173-180 | a completed response is taken up if its tag is active and discarded otherwise |
| Serve.LedgerMove | serveconn.go:173-188 | an entry that leaves the table goes to exactly one of replied, flushed, dropped |
| Serve.InvStep | serveconn.go:109-194 | every step of every goroutine keeps the invariant of the server |
| Serve.InvRun | serveconn.go:88-195 | the invariant holds in every state of every run |
| Serve.Conservation | serveconn.go:111-188 | in every run: accepted requests = active tags + replies + flushed + dropped |
| Serve.OwnStep | serveconn.go:109-194 | every step that does not accept a request under id's tag while id's goroutine is around keeps: id's goroutine and the answers to it belong to id's own entry |
| Serve.OwnRun | serveconn.go:109-194 | hence over every run, for each request separately |
| Serve.FlushSafety | serveconn.go:124-140 | as flush(5) asks: if the tag of a flushed request is not taken again before its handler has ended, nothing written, being written or about to be sent answers it, whatever happens to other tags |
| Serve.FlushedAnsweredIffReused | serveconn.go:173-182 | in every run the loop comes to send the answer of a flushed request if and only if it took that answer up while another request had the tag |
| Serve.FlushedSentIffReused | serveconn.go:181-188 | in every run that answer reaches the writer if and only if it was taken up so and the send was not then dropped |
| Serve.EarlyReuseAnswersFlushed | serveconn.go:173-188 | a run in which Rflush is written and then the answer to the flushed request |
| Serve.TableIsOpen | serveconn.go:88-97 | the table holds exactly the accepted requests that were neither answered, flushed nor dropped, under their own tags |
| Serve.OutcomeRun | serveconn.go:111-172 | every request accepted in every run: a duplicate of an open request's tag is to be answered so; a Tflush gives up exactly the open request it names and is to be answered Rflush, or that the tag is unknown; any other becomes open with its own handler |
| Serve.BypassIsNext | serveconn.go:113-148 | that answer is the next frame the writer gets, if the loop is not ended first |
| Serve.HandedIsNext | serveconn.go:226-247 | what the writer gets is the next frame on the wire, unless that write fails |
| Serve.OfferStays | serveconn.go:154-171 | what a handler returned is what its goroutine goes on offering, under its request's tag |
| Serve.CompleteOutcome | serveconn.go:173-182 | a completed response taken by the loop is to be sent, with the handler's body and under its own tag, exactly when some request is open under that tag |
| Mux.StepKeeps | transport.go:176-222 | every step of client, wires and server keeps the invariant that ties them together |
| Mux.AcceptKeeps | serveconn.go:111-148 | in particular the server taking a request: its tag is never active at that point |
| Mux.HandKeeps | serveconn.go:181-188 | and the reply being in flight while its tag is still in the table |
| Mux.RunKeeps | transport.go:176-222 | the invariant holds in every state of every run |
| Mux.NoPanic | transport.go:198-206 | the client never meets an unknown tag |
| Mux.NeverDupTag | serveconn.go:112-122 | the server never answers that a tag is a duplicate |
| Mux.OnePlace | serveconn.go:109-194 | a tag is in at most one of: request in flight, active at the server, reply in flight; and there at most once |
| Mux.OwnAnswer | transport.go:198-214 | what a caller receives is what the handler returned for the request that carried this caller's message |
| Mux.DeliveryReaches | transport.go:198-214 | every frame taken off the wire becomes the next value, of the caller whose request it answers |
| Mux.NoneForgotten | transport.go:60-102 | over every run each caller that asked is still registered or has its value |
| Inode.FileEnt.constructor | ramfs/filesys.go:77-91 | a new node has one reference and, if a directory, an empty children map |
| Inode.FileEnt.Incref | ramfs/inode.go:24-30 | one more reference on this node and no other change; callers only hold counted nodes |
| Inode.FileEnt.LinkChild | ramfs/inode.go:53-66 | succeeds exactly on a directory without that name, and then adds that entry |
| Inode.FileEnt.UnlinkChild | ramfs/inode.go:71-85 | succeeds exactly on a directory with that name, and then removes that entry |
| Inode.FileEnt.Decref | ramfs/inode.go:35-48 | on every finite graph, cyclic or not: ends; this node's bias drops by one and all others are kept; children are cleared exactly where a count left the positive range; no node still supported is lost |
| Inode.FileEnt.ReleaseKids | ramfs/inode.go:40-46 | the loop over the children, in any order, gives back one reference per entry |
| Inode.LiveIsGreatestSupported | ramfs/inode.go:35-48 | the nodes still counted after a cascade are the greatest set each of whose nodes is held from outside or linked from inside it, so the outcome does not depend on the order |
| Inode.CascadeUnique | ramfs/inode.go:35-48 | two cascades from one snapshot to one bias end in the same counts, entries and directories |
| Inode.BiasUnique | ramfs/inode.go:14-48 | counts are balanced for exactly one bias |
| Ramfs.FServer.constructor | ramfs/filesys.go:15-29 | a root with one reference, no fids, and the invariant |
| Ramfs.FServer.WalkDown | ramfs/dirent.go:96-109 | the nodes met going down as far as the names are found |
| Ramfs.FServer.LeadingUps | ramfs/dirent.go:119-124 | counts the leading backspaces of a valid list |
| Ramfs.FServer.Visit | ramfs/dirent.go:129-140 | the nodes passed: back over the ancestors, then down |
| Ramfs.FServer.TakeChain | ramfs/dirent.go:174-195 | the new chain is the old ancestors, the turning point and the nodes below, each with one more reference |
| Ramfs.FServer.HandleWalk | ramfs/dirent.go:111-208 | invalid path, first name not found, partial and complete walks, each stated by taking the names one at a time; references are taken only for a complete walk |
| Ramfs.ReachConcat | ramfs/dirent.go:111-208 | walking `a + b` is walking `a` and then `b` |
| Ramfs.WalkConcat | ramfs/dirent.go:111-208 | if walking `a` and then `b` is complete and `a + b` is valid, walking `a + b` is complete and gives the same handle and the qids of both |
| Ramfs.ReachCanonical | ramfs/dirent.go:119-140 | going up and then down agrees with taking the names one at a time, for every prefix |
| Ramfs.VisitedReached | ramfs/dirent.go:202-205 | the i-th qid is that of the node reached by the first i+1 names, for as many names as can be taken |
| Ramfs.WalkHandleOk | path.go:17-27 | the new path's components are the names of the nodes on the new chain |
| Ramfs.FServer.ReleaseHandle | ramfs/dirent.go:63-70 | every reference of the handle is given back, on the node and on each ancestor |
| Ramfs.FServer.Attach | sfilesys.go:231-275 | fails exactly for NOFID or a fid in use; otherwise the fid is a handle on the root and the root's qid is returned |
| Ramfs.FServer.Clunk | sfilesys.go:277-279 | the fid is gone, its references are given back, the invariant holds, and every list of names leads from the root where it led before |
| Ramfs.FServer.Walk | sfilesys.go:285-368 | when it succeeds and what it does: the fids change only if every name was found, and then newfid is where the names lead, by node chain and by path; entries go only at nodes whose count left the positive range, and names lead where they led before |
| Ramfs.FServer.Create | sfilesys.go:459-510 | when it succeeds; the fid moves to a new node linked under the old one, taking over the old handle's references, and that node's qid, the next path number, is returned; when a number is used up |
| Ramfs.FServer.NextPath | ramfs/filesys.go:15-18 | a path number no node has had, in 64 bits |
| Ramfs.QidsIdentify | ramfs/filesys.go:15-18 | two nodes share a qid if and only if their numbers are a multiple of 2^64 apart; until 2^64 have been drawn qids identify nodes, and below that they lie between 1 and the last one |
| Ramfs.WalkQidsIdentify | sfilesys.go:285-368 | until then two qids that walks return are equal if and only if the walks were at the same node |
| Ramfs.FServer.Plant | ramfs/dirent.go:226-241 | the new node is linked under its parent and referenced by it and by the handle, or nothing is linked |
| Ramfs.GoodCreate | ramfs/dirent.go:226-241 | transferring the old handle's references keeps the counts exact |
| Ramfs.HandlePositive | ramfs/inode.go:24-30 | every node a handle holds is counted, so incref never meets a node at zero |
| Ramfs.LinkPositive | ramfs/inode.go:24-30 | nor does it through a directory entry |
| Ramfs.FServer.Remove | ramfs/dirent.go:76-92 | unlinks and releases; the counting invariant holds afterwards if and only if the fid was unknown or the entry found is the handle's own node or is gone; then names lead where they led once the entry was cut |
| Ramfs.RemoveVerdict | ramfs/dirent.go:76-92 | the same on values: right exactly when the entry that was cut was the handle's own |
| Ramfs.NameReuse | ramfs/dirent.go:76-92 | a run of create, walk, remove, create, remove after which the counts are wrong |
| Ramfs.FServer.Stop | sfilesys.go:81-91 | exactly the fids of this session are gone and their references given back; names lead where they led before |
| Ramfs.FServer.Do | sfilesys.go:231-510 | every operation has its effect and keeps the invariant, except a Remove that would unlink another node |
| Ramfs.FServer.RunAndStop | sfilesys.go:81-91 | any run up to the first such Remove, followed by the end of every session, leaves no handle, a tree that passes validation, and no counted node that the root does not lead to |
| Ramfs.Oracle | ramfs/inode_test.go:17-55 | with no handles left the invariant implies what validation demands of the nodes found from the root, and that every counted node is found |
| Ramfs.Validate | ramfs/inode_test.go:17-55 | the tests' traversal with its tally, on any graph: accepts if and only if every node found from the root is well formed and counted by exactly the entries of such nodes |
| Ramfs.Scan | ramfs/inode_test.go:32-43 | the entries of one directory in any order: accepts exactly a well-formed node, and tallies each entry |
| Ramfs.CompareCounts | ramfs/inode_test.go:47-51 | the final comparison accepts exactly if all tallies equal the counts |
| Ramfs.LiveIffFound | ramfs/inode.go:35-48 | at any moment of a run a node is counted if and only if it can be found from the root or from a node some handle holds |
| Ramfs.TrimmedSameTree | ramfs/inode.go:41-46 | losing entries only at uncounted nodes leaves every list of names leading where it led |
| Ramfs.ReleaseDetermined | ramfs/dirent.go:63-70 | the graph a release leaves is determined by the graph before and the handles that remain |
| FidTable.NextKeeps | sfilesys.go:96-197 | every step of every call, in any interleaving, keeps the invariant of the fid table |
| FidTable.ReadyKeeps | sfilesys.go:370-510 | in particular the steps that use the Dirent under the lock |
| FidTable.ReservedKeeps | sfilesys.go:301-368 | and a walk to a new fid: published locked, filled later, undone on failure |
| FidTable.RunKeeps | sfilesys.go:96-197 | it holds in every state of every interleaving |
| FidTable.NoCallAfterFinal | sfilesys.go:159-197 | no call on a Dirent follows its Clunk, its Remove or the Create that took over its references |
| FidTable.ExclusiveUse | sfilesys.go:96-116 | no two calls use one Dirent at once, and one in use is live |
| FidTable.FileCallsLive | sfilesys.go:370-400 | as long as no open fid is walked in place, every Read and Write goes to a File whose Dirent is live |
| FidTable.StaleIffOpen | sfilesys.go:353-360 | at one step: an in-place walk leaves the File of the clunked Dirent behind if and only if the fid was open |
| FidTable.StaleIffWalkedOpen | sfilesys.go:353-368 | over every run: every open fid has the File of its own Dirent all along if and only if no open fid is walked in place |
| FidTable.ReadAfterWalk | sfilesys.go:353-368 | attach, open, walk in place, read: a run in which the read is served by a clunked Dirent's File |
| FidTable.FileStep | sfilesys.go:403-510 | a step changes a fid's File only by opening it, to the File of its Dirent, or by a create, to that of the new Dirent |
| FidTable.FileHistory | sfilesys.go:403-510 | over every run: a fid has the File of a Dirent if and only if it was opened when it had that Dirent, or a create put that Dirent there, and no create has followed |
| FidTable.FileCallStep | sfilesys.go:370-401 | a File is called if and only if a read or write gets through on an open fid, and it is that fid's |
| FidLeak.BaseKeeps | sfilesys.go:140-175 | every step keeps: fids name different entries, a published entry is under its own fid if at all, and what is being deleted is out of the table |
| FidLeak.PlacedKeeps | sfilesys.go:118-138 | every step keeps: a live Dirent belongs to an SFid or is on its way to one |
| FidLeak.LosesIffForeign | sfilesys.go:266-270 | from a state in which every used SFid is in the table or being deleted, a step loses one if and only if it is a failing Attach or Walk that takes out another call's entry |
| FidLeak.TrackedIffNoForeign | sfilesys.go:301-312 | the same over every run |
| FidLeak.NothingLost | sfilesys.go:96-197 | without such a step every live Dirent is in the table or in the hands of a call |
| FidLeak.LostForever | sfilesys.go:159-175 | an SFid lost with a Dirent is never named or deleted again and keeps a live Dirent |
| FidLeak.LostRun | sfilesys.go:257-275 | attach, clunk, attach, failure of the first attach: all calls end, the table is empty and a Dirent is live |
| FidProgress.HeldKeeps | sfilesys.go:96-197 | every step keeps: a lock is held only by a call that is at a point where it holds it |
| FidProgress.NoDeadlock | sfilesys.go:96-116 | in every run, as long as some call is not over, some call can take a step |
| FidProgress.WorkShrinks | sfilesys.go:285-368 | every step of a call uses up at least one of the at most seven it can take |
| FidProgress.CanFinish | sfilesys.go:96-197 | every run can be continued, by the calls it has, until all of them are over |
| Path.ValidPath | path.go:45-62 | the number of leading backspaces if only plain names follow, otherwise -1, in both directions |
| Path.NormalizePath | path.go:76-100 | fails exactly on a name with a separator; otherwise the loop computes the normal form and its count |
| Path.NormMeaning | path.go:76-100 | the normal form moves every directory as the list does, and fails on exactly the same ones |
| Path.NormalizeIdempotent | path.go:76-100 | the result passes ValidPath with the returned count, and normalising it changes nothing |
| Path.UpIsGreatestExcess | path.go:76-100 | the count is the greatest excess of pops over pushes across all prefixes |
| Path.SameNormalIffSameMoves | path.go:76-100 | two lists have one normal form if and only if they move every deep enough directory to the same place |
| Path.MoveConcat | path.go:17-27 | moving along `a + b` is moving along `a` and then `b` |
| Path.MoveCanonical | path.go:17-27 | a valid list drops its backspaces' worth of names and appends the rest |
| Path.CanonicalUnique | path.go:45-62 | the count ValidPath returns is determined by the list |
| Codec.LEAt | encoding.go:93-97 | byte i of a number is its digit i in base 256 |
| Codec.NumBack | encoding.go:256-259 | a number of any width is read back, and nothing after it is touched |
| Codec.FieldBack | encoding.go:253-427 | every kind of field is read back, with any suffix |
| Codec.FieldsBack | encoding.go:253-427 | every list of fields is read back, with any suffix |
| Codec.DirBack | encoding.go:336-359 | a stat record is read back through its length prefix |
| Messages.BuildBack | messages.go:12-71 | newMessage's targets are those of the message that was encoded, for all 27 types |
| Messages.RoundTrip | encoding.go:201-244 | decoding an encoded Fcall followed by any bytes gives the Fcall and exactly those bytes |
| Messages.PrefixFree | encoding.go:90-246 | no encoding is the beginning of another |
| Layout.OnWire | encoding.go:90-246 | every message lies on the wire as section 5 of the Plan 9 manual lays it out: its type code, its tag, each field at its offset, little end first, and nothing after them |
| Layout.QidWritten | encoding.go:149-152 | a Qid: type at 0, version at 1, path at 5 |
| Layout.DirWritten | encoding.go:174-187 | a Dir: its length without itself at 0, then each field at its offset |
| Layout.StrsWritten | encoding.go:125-134 | a list of strings: their number, then each behind the ones before it |
| Accepted.DecodeIff | encoding.go:253-427 | for every message but Rstat and Twstat the decoder accepts its encoding and nothing else, whatever follows |
| Accepted.DecodeStatIff | encoding.go:392-422 | for those two it accepts any second length and bytes after the last field that the record's length covers, and nothing else |
| Accepted.CutShort | encoding.go:253-427 | an encoding cut anywhere before its end is refused |
| Accepted.UnknownTypeIff | messages.go:12-71 | bytes are refused for their type if and only if type and tag are there and the type is none of the 27 |
| Encoding.Encoder.Encode | encoding.go:90-203 | the recursive type switch appends exactly the wire form of a list of values |
| Encoding.EncodeMessage | encoding.go:212-241 | the message case, with the second length of Rstat and Twstat computed by size9p |
| Encoding.EncodeFcall | encoding.go:204-211 | the Fcall case: type, tag, message |
| Encoding.Encoder.EncodeDir | encoding.go:174-187 | in particular a stat record with the size computed by size9p |
| Encoding.Decoder.Decode | encoding.go:253-359 | the loop over targets returns what the format says, with the same error, and leaves the reader at the same place in either case |
| Encoding.Decoder.DecodeMessage | encoding.go:392-422 | the message case, consuming the second length of Rstat and Twstat |
| Encoding.Decoder.DecodeFcall | encoding.go:372-391 | the Fcall case, with the unknown types refused |
| Encoding.Decoder.OneDir | encoding.go:336-359 | a record is taken off the reader whole and decoded by a decoder of its own; the outer reader stands behind the record even if that fails |
| Encoding.Marshal | encoding.go:40-49 | marshalling an Fcall gives its wire form: the bytes that the manual lays out, by offset |
| Encoding.Unmarshal | encoding.go:35-38 | unmarshalling agrees with the format on every input, errors included, and ignores what follows the message |
| Encoding.Size9p | encoding.go:433-534 | the wrapping sum is the length of the encoding modulo 2^32 |
| Encoding.Size | encoding.go:51-53 | for an Fcall it is the length exactly when that is below 2^32 |
| Encoding.SizeWraps | encoding.go:433-446 | a well-formed read reply whose computed size is 6 |
| Encoding.StatLengths | encoding.go:217-236 | both lengths in front of the record in Rstat and Twstat equal the number of bytes that follow them, as stat(5) describes |
| Channels.Channel.constructor | channel.go:88-98 | the read buffer is as long as msize |
| Channels.Channel.SetMSize | channel.go:106-118 | it stays so; shrinking keeps the start of the buffer |
| Channels.Channel.RewriteCount | channel.go:222-241 | the wrapping arithmetic gives min(Count, (msize - 11) mod 2^32), for every Count and msize |
| Channels.WrapCases | channel.go:226-239 | the two branches of the wrapped comparison agree with that minimum |
| Channels.Channel.MaybeTruncate | channel.go:213-277 | what each message becomes, or its overflow |
| Channels.TruncateKeeps | channel.go:213-277 | what passes is the message given, but for the Count of a Tread and for the Data of a Twrite, of which a prefix is kept; what does not is reported with its exact excess unless its size wrapped |
| Channels.ReadKeepsMost | channel.go:222-241 | the Count of a Tread becomes the greatest that is at most what was asked for and whose reply fits msize, or msize + 2^32 below 11 |
| Channels.FitsIff | channel.go:242-274 | a Tread always passes, a Twrite exactly from msize 23 on, any other message exactly when it fits |
| Channels.FrameFitsIff | channel.go:213-277 | what passes occupies at most msize bytes exactly when its size did not wrap and it is not a Tread with msize below 23 |
| Channels.TruncateIdempotent | channel.go:213-277 | truncating again changes nothing |
| Channels.WriteKeepsLongestPrefix | channel.go:242-266 | a Twrite keeps a prefix of its data, and a longer prefix would not fit |
| Channels.Channel.ReadMessage | channel.go:292-324 | stores what fits over the old buffer, skips the rest of the message, reports the short reads |
| Channels.ReadMsgFrame | channel.go:292-343 | a frame of any size is consumed exactly, whatever the buffer |
| Channels.FrameOnWire | channel.go:328-343 | a frame is its own length in four bytes, little end first, and the message |
| Accepted.ReadMsgIff | channel.go:292-324 | on any stream: out of range exactly when the length is below 4, an error exactly when the stream ends before it, otherwise the message fills the buffer as far as it goes and the stream is left behind it |
| Accepted.ReadMsgShortHeader | channel.go:292-299 | fewer than four bytes are io.EOF if there are none and an unexpected end otherwise |
| Channels.Channel.ReadFcall | channel.go:124-164 | overflow, decoding error, truncation or message, from the frame and the stale bytes behind it |
| Channels.Channel.WriteFcall | channel.go:172-204 | the frame of the truncated message is written, or nothing |
| Channels.ReadOne | channel.go:142-163 | a message some peer sent is delivered if it fits and otherwise reported with the exact excess, whatever stale bytes are in the buffer; the stream is left at the next frame |
| Channels.Deliver | channel.go:124-204 | with equal msize the reader gets exactly what the writer truncated to, for every message but a Tread with msize below 23, which is reported 23 - msize bytes too long |
| Channels.ReadsStayAligned | channel.go:142-151 | over any stream each message is delivered or reported on its own account and the ones after it are unaffected |
| Channels.FramesStayAligned | channel.go:292-343 | the k-th readmsg reads the k-th frame, for arbitrary payloads and every buffer length |
| Channels.ReadBuffer | ssesssion.go:97-104 | the buffer is as large as both the request and the session's msize allow, and never negative |
| Channels.ClampIsGreatest | ssesssion.go:97-104 | that is the greatest size that is at most what was asked for and whose reply is within the session's msize, and 0 if none is |
| Channels.RoomIsGreatest | ssesssion.go:97-104 | together with the rewritten Count: the greatest size within the request and both ends' msize |
| Channels.Transfer | channel.go:124-204 | one message written at one end and read at the other, on the channels themselves: not sent, delivered as truncated, or (a Tread below msize 23) reported too long; both streams are empty again |
| Channels.ReplyFits | ssesssion.go:93-112 | the reply to a received Tread, from a File that stays within its buffer, passes the channel unchanged if msize is at least 11, and overflows by the exact amount otherwise |
| Channels.ReadExchange | csession.go:142-168 | one read from end to end with equal msize of at least 23: the server gets the rewritten request, the client gets exactly the data put into the buffer, and that is no more than it asked for |
| ReadDirectory.FitIsLongest | readdir.go:93-118 | the number of records in a chunk is that of the longest prefix that fits |
| ReadDirectory.LeadingIff | readdir.go:93-118 | the entries that can be delivered are those before the first whose record does not fit the buffer alone |
| ReadDirectory.EntriesAt | readdir.go:26-50 | there are as many entries as the batches before the first empty one hold together, and entry i of batch j stands behind all entries of the batches before it |
| ReadDirectory.Source.constructor | readdir.go:26-50 | the entries are those of the batches up to the first empty one |
| ReadDirectory.Source.Fixed | readdir.go:71-85 | or those of a fixed list |
| ReadDirectory.Source.Next | readdir.go:30-49 | each entry of each batch before the first empty one is returned once, in order, then io.EOF for ever |
| ReadDirectory.Readdir.Fill | readdir.go:92-118 | whole records, as many as fit; the one that does not fit is kept for the next call |
| ReadDirectory.Readdir.Read | readdir.go:87-129 | fails without effect on a wrong offset; otherwise delivers that chunk and advances the offset by its length |
| ReadDirectory.DirsBack | encoding.go:56-84 | whole records decode to their entries and end cleanly |
| ReadDirectory.Session.Ask | csession.go:142-151 | the Tread reaches the server's handler with its count rewritten if msize is at least 23; otherwise the server's reader fails and the connection ends |
| ReadDirectory.Session.Reply | serveconn.go:229-247 | a reply reaches the client if and only if it fits; otherwise the server's writer fails and the connection ends |
| ReadDirectory.Session.Read | ssesssion.go:93-112 | a read of a directory over the two channels: an error and no effect if the connection is down or msize is below 23, an Rerror on a wrong offset, otherwise the next chunk that fits what the limits leave of the client's buffer, io.EOF if it is empty |
| ReadDirectory.OpenDir.constructor | cfilesys.go:168-184 | starts at the server's offset with nothing done |
| ReadDirectory.OpenDir.DecodeChunk | cfilesys.go:203-215 | the decode loop: the entries up to the first that cannot be read, and why; io.EOF is the end |
| ReadDirectory.OpenDir.Next | cfilesys.go:186-220 | returns the next chunk's entries and never meets a wrong offset or a broken record; done exactly when a chunk is empty; an error that changes nothing else if and only if the connection is down or msize is below 23 |
| ReadDirectory.LeadingAfter | cfilesys.go:186-220 | a chunk takes its share of the entries whose records each fit the buffer, and takes nothing only when none is left |
| ReadDirectory.List | cfilesys.go:186-220 | calling Next to the end succeeds if and only if the connection is up and msize is at least 23; then it lists exactly the entries before the first whose record is larger than what the server may fill, hence all of them if and only if every record fits, and the offset is the number of bytes delivered as an int64; otherwise nothing is listed |
| ReadDirectory.ListDirectory | readdir.go:26-129 | the same end to end, for any batches, buffer size, msize and session limit: fails exactly below msize 23 |

## Left out

- net.Conn, bufio, deadlines, timers and logging: environment; only "cancelled", "closed", "write failed" and "response lost" remain, as steps that may happen at any time.
- Liveness: apart from the fid table, nothing is said about what eventually happens, such as the server loop waiting for a writer that has stopped.
- Auth fids and Attach with a real afid: Auth never links a Dirent, so such fids are rejected.
- Create whose OpenDir fails (sfilesys.go:489-497): it takes a lock it already holds; not part of `FidTable` or `Ramfs`.
- Fids named in flight while Stop runs: `FidTable` ends before Stop; `Ramfs` treats each operation as one step.
- ramfs file contents, WStat, permissions, qid types and versions: not part of the counting or path statements.
- Path strings: `path.Join` and splitting are modelled at the level of components.
- Reflection and pointer-form messages: a message is a datatype with its fields in order; times are the 32-bit values on the wire.
- Strings, lists and stat records too long for their 16-bit lengths: excluded from the round trips by a well-formedness predicate, encoded with wrapped lengths all the same.
- Version negotiation: enters as "both ends have the same msize".
- Session forwarding (csession.go), ufs, sleepfs and the commands: thin wrappers, operating system calls and user interface.
- ReadDirectory.Session.Read: one request at a time; tags, concurrent requests and the transport between are `Mux`. The fid is taken to be open, and the server's ReadNext does not fail.
- Decoding into a list of Dirs (encoding.go:360-371): used by nothing outside the tests; the client decodes records one by one.
- Channels.Channel.ReadFcall: the read buffer is a sequence that is reassigned, so sharing of its array between slices is not modelled.
- Mux.OwnAnswer: callers that send flushes themselves are not covered; the session interface has none.
