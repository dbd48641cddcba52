/** Directory streaming: the server's Readdir (readdir.go) and the client's openDir (cfilesys.go). */
module ReadDirectory {
  import opened Common
  import opened Codec
  import opened Messages
  import Channels

  // ---------------------------------------------------------------- records and how many fit

  function EncDirs(ds: seq<Dir>): bytes {
    if ds == [] then [] else EncDir(ds[0]) + EncDirs(ds[1..])
  }

  lemma NoRecords()
    ensures EncDirs([]) == []
  {
  }

  /** How many entries from the front fit a buffer of this size together. */
  function Fit(ds: seq<Dir>, room: nat): nat
    decreases |ds|
  {
    if ds == [] || |EncDir(ds[0])| > room then 0
    else 1 + Fit(ds[1..], room - |EncDir(ds[0])|)
  }

  /** How many entries from the front would each fit the buffer alone. */
  function Leading(ds: seq<Dir>, room: nat): nat
    decreases |ds|
  {
    if ds == [] || |EncDir(ds[0])| > room then 0 else 1 + Leading(ds[1..], room)
  }

  lemma {:induction false} FitBound(ds: seq<Dir>, room: nat)
    ensures Fit(ds, room) <= |ds|
    decreases |ds|
  {
    hide EncDir;
    if ds != [] && |EncDir(ds[0])| <= room {
      FitBound(ds[1..], room - |EncDir(ds[0])|);
    }
  }

  /** Fit is the longest prefix whose records fit. */
  lemma {:induction false} FitIsLongest(ds: seq<Dir>, room: nat, n: nat)
    requires n <= |ds|
    ensures |EncDirs(ds[..n])| <= room <==> n <= Fit(ds, room)
    decreases |ds|
  {
    hide EncDir;
    if n > 0 {
      assert ds[..n][1..] == ds[1..][..n - 1];
      if |EncDir(ds[0])| <= room {
        FitIsLongest(ds[1..], room - |EncDir(ds[0])|, n - 1);
      }
    }
  }

  lemma RecordNotEmpty(d: Dir)
    ensures |EncDir(d)| >= 2
  {
  }

  /** A prefix that fits and cannot be extended by the next record is the longest one. */
  lemma StopsAtFit(ds: seq<Dir>, i: nat, room: nat)
    requires i <= |ds| && |EncDirs(ds[..i])| <= room
    requires i < |ds| ==> |EncDirs(ds[..i])| + |EncDir(ds[i])| > room
    ensures i == Fit(ds, room)
  {
    hide EncDir;
    FitBound(ds, room);
    FitIsLongest(ds, room, i);
    if i < |ds| {
      EncDirsSnoc(ds, i);
      FitIsLongest(ds, room, i + 1);
    }
  }

  lemma {:induction false} LeadingBound(ds: seq<Dir>, room: nat)
    ensures Leading(ds, room) <= |ds|
    ensures Leading(ds, room) == |ds| <==> forall d <- ds :: |EncDir(d)| <= room
    decreases |ds|
  {
    hide EncDir;
    if ds != [] {
      LeadingBound(ds[1..], room);
      assert forall d <- ds :: d == ds[0] || d in ds[1..];
    }
  }

  /** The leading entries are those before the first that is too long. */
  lemma {:induction false} LeadingIff(ds: seq<Dir>, room: nat, n: nat)
    requires n <= |ds|
    ensures n <= Leading(ds, room) <==> forall i :: 0 <= i < n ==> |EncDir(ds[i])| <= room
    decreases |ds|
  {
    hide EncDir;
    if n > 0 {
      LeadingIff(ds[1..], room, n - 1);
      assert forall i :: 0 < i < n ==> ds[i] == ds[1..][i - 1];
      assert forall i :: 0 <= i < n - 1 ==> ds[1..][i] == ds[i + 1];
    }
  }

  /** One chunk takes its share of the leading entries, and takes nothing only when none is left. */
  lemma {:induction false} LeadingAfter(ds: seq<Dir>, room: nat, whole: nat)
    requires room <= whole
    ensures Fit(ds, room) <= |ds|
    ensures Leading(ds, whole) == Fit(ds, room) + Leading(ds[Fit(ds, room)..], whole)
    ensures Fit(ds, whole) == 0 <==> Leading(ds, whole) == 0
    decreases |ds|
  {
    hide EncDir;
    if ds != [] && |EncDir(ds[0])| <= room {
      LeadingAfter(ds[1..], room - |EncDir(ds[0])|, whole);
      var n := Fit(ds, room);
      assert ds[1..][n - 1..] == ds[n..];
    } else {
      assert ds[0..] == ds;
    }
  }

  lemma {:induction false} EncDirsSnoc(ds: seq<Dir>, i: nat)
    requires i < |ds|
    ensures EncDirs(ds[..i + 1]) == EncDirs(ds[..i]) + EncDir(ds[i])
    decreases i
  {
    hide EncDir;
    if i > 0 {
      EncDirsSnoc(ds[1..], i - 1);
      assert ds[1..][..i] == ds[..i + 1][1..] && ds[1..][..i - 1] == ds[..i][1..];
    } else {
      assert ds[..1][1..] == [];
    }
  }

  // ---------------------------------------------------------------- the source of entries

  /** The entries a ReadNext supplies: its batches up to the first empty one. */
  function Entries(batches: seq<seq<Dir>>): seq<Dir> {
    if batches == [] || batches[0] == [] then [] else batches[0] + Entries(batches[1..])
  }

  /** How many entries the first j batches hold. */
  function Before(batches: seq<seq<Dir>>, j: nat): nat
    requires j <= |batches|
  {
    if j == 0 then 0 else Before(batches, j - 1) + |batches[j - 1]|
  }

  /** The first k batches are the ones a ReadNext is asked for: none of them is empty, and the next one is
      or there is none. */
  predicate Supplied(batches: seq<seq<Dir>>, k: nat) {
    k <= |batches| && (forall j :: 0 <= j < k ==> batches[j] != []) && (k < |batches| ==> batches[k] == [])
  }

  function Asked(batches: seq<seq<Dir>>): (k: nat)
    ensures Supplied(batches, k)
  {
    if batches == [] || batches[0] == [] then 0 else 1 + Asked(batches[1..])
  }

  lemma {:induction false} BeforeTail(batches: seq<seq<Dir>>, j: nat)
    requires 0 < j <= |batches|
    ensures Before(batches, j) == |batches[0]| + Before(batches[1..], j - 1)
  {
    if j > 1 {
      BeforeTail(batches, j - 1);
    }
  }

  lemma {:induction false} EntriesCount(batches: seq<seq<Dir>>, k: nat)
    requires Supplied(batches, k)
    ensures |Entries(batches)| == Before(batches, k)
    decreases |batches|
  {
    if k > 0 {
      EntriesCount(batches[1..], k - 1);
      BeforeTail(batches, k);
    }
  }

  /** Every entry of every batch before the first empty one is supplied, in its place. */
  lemma {:induction false} EntriesAt(batches: seq<seq<Dir>>, k: nat, j: nat, i: nat)
    requires Supplied(batches, k) && j < k && i < |batches[j]|
    ensures |Entries(batches)| == Before(batches, k)
    ensures Before(batches, j) + i < |Entries(batches)| && Entries(batches)[Before(batches, j) + i] == batches[j][i]
    decreases |batches|
  {
    EntriesCount(batches, k);
    if j > 0 {
      EntriesAt(batches[1..], k - 1, j - 1, i);
      BeforeTail(batches, j);
    }
  }

  /** mkNext1: turns batches into single entries.  NewFixedReaddir's closure is the case of no
      batches. */
  class Source {
    var batches: seq<seq<Dir>>
    var dirs: seq<Dir>
    var done: bool

    ghost function Remaining(): seq<Dir>
      reads this
    {
      if done then [] else dirs + Entries(batches)
    }

    constructor (batches: seq<seq<Dir>>)
      ensures Remaining() == Entries(batches)
    {
      this.batches := batches;
      dirs, done := [], false;
    }

    constructor Fixed(dir: seq<Dir>)
      ensures Remaining() == dir
    {
      batches := [];
      dirs, done := dir, false;
    }

    /** The next entry, or None for io.EOF. */
    method Next() returns (r: Option<Dir>)
      modifies this
      ensures if old(Remaining()) == [] then r == None && Remaining() == []
              else r == Some(old(Remaining())[0]) && Remaining() == old(Remaining())[1..]
    {
      if done {
        return None;
      }
      if |dirs| == 0 {
        var ret := if batches == [] then [] else batches[0];
        if |ret| == 0 {
          done := true;
          return None;
        }
        batches := batches[1..];
        dirs := ret;
      }
      r := Some(dirs[0]);
      dirs := dirs[1..];
    }
  }

  // ---------------------------------------------------------------- the server end

  const M64 := 0x1_0000_0000_0000_0000

  /** An integer as an int64 holds it. */
  function Int64(n: int): int {
    (n + 0x8000_0000_0000_0000) % M64 - 0x8000_0000_0000_0000
  }

  lemma Int64Add(a: int, b: int)
    ensures Int64(Int64(a) + b) == Int64(a + b)
  {
    var h := 0x8000_0000_0000_0000;
    var q, r := (a + h) / M64, (a + h) % M64;
    assert a + b + h == M64 * q + (r + b);
  }

  /** Going through a uint64 changes nothing. */
  lemma Int64ThroughU64(n: int)
    ensures Int64(Int64(n) % M64) == Int64(n)
  {
  }

  datatype Chunk = Records(p: bytes) | BadOffset

  class Readdir {
    const src: Source
    var buf: Option<Dir>
    var offset: int

    /** The entries not delivered yet. */
    ghost function Pending(): seq<Dir>
      reads this, src
    {
      (if buf.Some? then [buf.value] else []) + src.Remaining()
    }

    constructor (src: Source)
      ensures this.src == src && offset == 0 && Pending() == src.Remaining()
    {
      this.src := src;
      buf, offset := None, 0;
    }

    method Take() returns (r: Option<Dir>)
      modifies `buf, src
      ensures if old(Pending()) == [] then r == None && Pending() == []
              else r == Some(old(Pending())[0]) && Pending() == old(Pending())[1..] && buf == None
    {
      if buf.Some? {
        r := buf;
        buf := None;
      } else {
        r := src.Next();
      }
    }

    /** One-item pushback. */
    method PutBack(d: Dir)
      requires buf == None
      modifies `buf
      ensures Pending() == [d] + old(Pending())
    {
      buf := Some(d);
    }

    /** The loop of Read. */
    method Fill(room: nat) returns (p: bytes)
      modifies `buf, src
      ensures var n := Fit(old(Pending()), room);
              && n <= |old(Pending())|
              && p == EncDirs(old(Pending())[..n])
              && Pending() == old(Pending())[n..]
    {
      hide EncDir, EncDirs, Fit, Pending;
      p := [];
      ghost var all := Pending();
      ghost var i := 0;
      NoRecords();
      while |p| < room
        invariant 0 <= i <= |all|
        invariant p == EncDirs(all[..i]) && |p| <= room
        invariant Pending() == all[i..]
        decreases room - |p|
      {
        var d := Take();
        if d.None? {
          break;
        }
        assert d.value == all[i] && all[i..][1..] == all[i + 1..];
        var dp := EncDir(d.value);
        EncDirsSnoc(all, i);
        RecordNotEmpty(d.value);
        if |p| + |dp| > room {
          PutBack(d.value);
          assert [all[i]] + all[i + 1..] == all[i..];
          break;
        }
        p := p + dp;
        i := i + 1;
      }
      if i < |all| {
        RecordNotEmpty(all[i]);
      }
      StopsAtFit(all, i, room);
    }

    /** Delivers whole records, as many as fit, provided the caller asks for where the stream is. */
    method Read(room: nat, off: int) returns (r: Chunk)
      modifies this, src
      ensures off != old(offset) ==> r == BadOffset && offset == old(offset) && Pending() == old(Pending())
      ensures off == old(offset) ==>
                var n := Fit(old(Pending()), room);
                && n <= |old(Pending())|
                && r == Records(EncDirs(old(Pending())[..n]))
                && Pending() == old(Pending())[n..]
                && offset == Int64(old(offset) + |EncDirs(old(Pending())[..n])|)
    {
      hide EncDirs, Fit, Int64;
      if offset != off {
        return BadOffset;
      }
      var p := Fill(room);
      offset := Int64(offset + |p|);
      r := Records(p);
    }
  }

  // ---------------------------------------------------------------- decoding a chunk

  /** How decoding a chunk record by record ended. */
  datatype Ending = AtEnd | Failed(err: Error) | Crashed

  /** DecodeDir.  The record's buffer is allocated with a 16-bit length: for the two largest lengths it
      is too short for the prefix, and storing that fails. */
  predicate LengthWraps(b: bytes) {
    DecNum(b, 2).Ok? && DecNum(b, 2).value >= 0xFFFE
  }

  lemma DecDirShrinks(b: bytes)
    requires DecDir(b).Ok?
    ensures |DecDir(b).rest| < |b|
  {
    hide UnLE, DecDirBody;
  }

  /** The entries of a chunk up to the first one that cannot be read, and why that is; io.EOF there
      counts as the end of the chunk. */
  function DecDirs(b: bytes): (seq<Dir>, Ending)
    decreases |b|
  {
    if LengthWraps(b) then ([], Crashed)
    else
      match DecDir(b)
      case Err(e, _) => ([], if e == EOF then AtEnd else Failed(e))
      case Ok(d, rest) =>
        DecDirShrinks(b);
        var (ds, end) := DecDirs(rest);
        ([d] + ds, end)
  }

  /** Whole records decode to their entries. */
  lemma {:induction false} DirsBack(ds: seq<Dir>)
    requires forall d <- ds :: WfDir(d)
    ensures DecDirs(EncDirs(ds)) == (ds, AtEnd)
  {
    hide EncDir, DecDir, WfDir, LengthWraps;
    if ds == [] {
      NothingLeft();
    } else {
      DirBack(ds[0], EncDirs(ds[1..]));
      NoWrap(ds[0], EncDirs(ds[1..]));
      DirsBack(ds[1..]);
      assert [ds[0]] + ds[1..] == ds;
    }
  }

  lemma NothingLeft()
    ensures DecDir([]) == Err(EOF, []) && !LengthWraps([])
  {
  }

  lemma NoWrap(d: Dir, s: bytes)
    requires WfDir(d)
    ensures !LengthWraps(EncDir(d) + s)
  {
    hide LE, DecNum, EncDirBody;
    var body := EncDirBody(d);
    assert EncDir(d) + s == LE(|body|, 2) + (body + s);
    NumBack(|body|, 2, body + s);
  }

  // ---------------------------------------------------------------- the session in between

  const BAD_OFFSET: bytes := [0x62, 0x61, 0x64, 0x20, 0x6F, 0x66, 0x66, 0x73, 0x65, 0x74]

  /** What the client's Read gives: bytes, io.EOF, an Rerror, or the end of the connection. */
  datatype Answer = Bytes(data: bytes) | EndOfFile | Remote | Closed

  /** A connection: the channels at its two ends and the msize the read handler goes by. */
  class Session {
    const client: Channels.Channel
    const server: Channels.Channel
    const limit: int
    var closed: bool

    ghost predicate Valid()
      reads this, client, server
    {
      && client != server && client.Valid() && server.Valid() && client.msize == server.msize
      && (!closed ==> client.brd == client.bwr == server.brd == server.bwr == [])
    }

    /** The connection is up, and its msize has room for a Tread. */
    ghost predicate Serves()
      reads this, client
    {
      !closed && client.msize >= 23
    }

    constructor (msize: u32, limit: int)
      ensures Valid() && !closed && client.msize == msize && this.limit == limit
      ensures fresh(client) && fresh(server)
    {
      var c := new Channels.Channel(msize);
      var s := new Channels.Channel(msize);
      client, server, this.limit, closed := c, s, limit, false;
    }

    /** The request reaches the server's handler, with the count rewritten, or the server's reader
        fails and the connection ends. */
    method Ask(tag: u16, fid: u32, offset: u64, count: u32) returns (r: Option<Fcall>)
      requires Valid() && !closed
      modifies `closed, client`bwr, server`brd, server`rdbuf
      ensures Valid() && closed == !old(Serves())
      ensures r == if closed then None
                   else Some(Fcall(116, tag, Tread(fid, offset, Channels.ReadCount(count, client.msize))))
    {
      hide Messages.Encode;
      var request := Fcall(116, tag, Tread(fid, offset, count));
      Channels.ReadLength(request);
      var got := Channels.Transfer(client, server, request);
      closed := got.None? || !got.value.Message?;
      r := if closed then None else Some(got.value.fcall);
    }

    /** A reply reaches the client if it fits; otherwise the server's writer fails and the connection
        ends. */
    method Reply(f: Fcall) returns (r: Option<Fcall>)
      requires Valid() && !closed && WfFcall(f) && |Messages.Encode(f)| < M32 && (f.msg.Rread? || f.msg.Rerror?)
      modifies `closed, server`bwr, client`brd, client`rdbuf
      ensures Valid() && closed == (4 + |Messages.Encode(f)| > client.msize)
      ensures r == if closed then None else Some(f)
    {
      hide Messages.Encode, WfFcall;
      var got := Channels.Transfer(server, client, f);
      closed := got.None? || !got.value.Message?;
      r := if closed then None else Some(got.value.fcall);
    }

    /** Session.Read of a directory over the connection: the client's half, the server's read handler
        and the Readdir behind it.  Tags are the transport's choice. */
    method Read(dir: Readdir, fid: u32, buflen: u32, off: int) returns (r: Answer)
      requires Valid() && off == Int64(off)
      modifies this, client, server, dir, dir.src
      ensures Valid() && client.msize == old(client.msize) && closed == !old(Serves())
      ensures closed ==> r == Closed
      ensures closed || off != old(dir.offset) ==> dir.offset == old(dir.offset) && dir.Pending() == old(dir.Pending())
      ensures !closed && off != old(dir.offset) ==> r == Remote
      ensures !closed && off == old(dir.offset) ==>
                var n := Fit(old(dir.Pending()), Channels.Room(buflen, client.msize, limit));
                && n <= |old(dir.Pending())|
                && dir.Pending() == old(dir.Pending())[n..]
                && var p := EncDirs(old(dir.Pending())[..n]);
                   dir.offset == Int64(old(dir.offset) + |p|) && r == if p == [] then EndOfFile else Bytes(p)
    {
      hide Messages.Encode, Fit, EncDirs, Int64, Readdir.Pending, Channels.ReadCount;
      if closed {
        return Closed;
      }
      ghost var msize, pending := client.msize, dir.Pending();
      var tag: u16 := *;
      var request := Ask(tag, fid, off % M64, buflen);
      if closed {
        return Closed;
      }
      Int64ThroughU64(off);
      var n := Channels.ReadBuffer(request.value.msg.count, limit);
      assert n == Channels.Room(buflen, msize, limit) && n <= buflen && n + 11 <= msize by {
        RoomFits(buflen, msize, limit);
      }
      var c := dir.Read(n, Int64(request.value.msg.offset));
      var reply := Fcall(if c.Records? then 117 else 107, tag, if c.Records? then Rread(c.p) else Rerror(BAD_OFFSET));
      if c.Records? {
        ChunkFits(pending, n);
        Channels.ReplyLength(reply);
      } else {
        Channels.ErrorLength(reply);
      }
      var back := Reply(reply);
      if closed {
        return Closed;
      }
      match back.value.msg {
        case Rread(data) =>
          var p := if |data| <= buflen then data else data[..buflen];
          r := if |data| == 0 then EndOfFile else Bytes(p);
        case _ => r := Remote;
      }
    }
  }

  lemma RoomFits(count: u32, msize: u32, limit: int)
    requires msize >= 11
    ensures Channels.Room(count, msize, limit) <= count && Channels.Room(count, msize, limit) + 11 <= msize
  {
  }

  lemma ChunkFits(ds: seq<Dir>, room: nat)
    ensures Fit(ds, room) <= |ds| && |EncDirs(ds[..Fit(ds, room)])| <= room
  {
    FitBound(ds, room);
    FitIsLongest(ds, room, Fit(ds, room));
  }

  // ---------------------------------------------------------------- the client end

  datatype Batch = Batch(dirs: seq<Dir>) | ReadError | DecodeError(dirs: seq<Dir>, err: Error) | DecodePanic

  class OpenDir {
    const session: Session
    const server: Readdir
    const fid: u32
    const buflen: u32
    var done: bool
    var nread: int

    /** The part of the client's buffer that the channel's and the handler's limits let the server fill. */
    ghost function Room(): nat
      reads session, session.client
    {
      Channels.Room(buflen, session.client.msize, session.limit)
    }

    /** The client reads where the server is; once done, nothing that fits is left. */
    ghost predicate Valid()
      reads this, server, server.src, session, session.client, session.server
    {
      && session.Valid() && nread == server.offset == Int64(nread)
      && (done ==> Leading(server.Pending(), Room()) == 0)
      && forall d <- server.Pending() :: WfDir(d)
    }

    constructor (session: Session, server: Readdir, fid: u32, buflen: u32)
      requires session.Valid() && server.offset == 0 && forall d <- server.Pending() :: WfDir(d)
      ensures Valid() && !done && this.session == session && this.server == server
      ensures this.fid == fid && this.buflen == buflen
    {
      this.session, this.server, this.fid, this.buflen := session, server, fid, buflen;
      done, nread := false, 0;
    }

    /** Decodes the records of a chunk one after the other. */
    static method DecodeChunk(b: bytes) returns (ret: seq<Dir>, end: Ending)
      ensures (ret, end) == DecDirs(b)
    {
      hide DecDir, LengthWraps;
      ret := [];
      var rd := b;
      ghost var want := DecDirs(b);
      assert [] + want.0 == want.0;
      while true
        invariant want == (ret + DecDirs(rd).0, DecDirs(rd).1)
        decreases |rd|
      {
        if LengthWraps(rd) {
          end := Crashed;
          break;
        }
        match DecDir(rd) {
          case Err(e, _) =>
            end := if e == EOF then AtEnd else Failed(e);
            break;
          case Ok(d, rest) =>
            DecDirShrinks(rd);
            assert ret + ([d] + DecDirs(rest).0) == (ret + [d]) + DecDirs(rest).0;
            ret := ret + [d];
            rd := rest;
        }
      }
      assert ret + [] == ret;
    }

    /** Returns the entries of one chunk; an empty batch means the end.  Over a connection that is down
        or whose msize has no room for a Tread, returns the error and changes nothing else. */
    method Next() returns (r: Batch)
      requires Valid()
      modifies this, server, server.src, session, session.client, session.server
      ensures Valid() && session.client.msize == old(session.client.msize)
      ensures old(done) ==> session.closed == old(session.closed)
      ensures !old(done) ==> session.closed == !old(session.Serves())
      ensures !old(done) && session.closed ==>
                r == ReadError && !done && server.Pending() == old(server.Pending()) &&
                server.offset == old(server.offset)
      ensures old(done) || !session.closed ==>
                var n := if old(done) then 0 else Fit(old(server.Pending()), old(Room()));
                && n <= |old(server.Pending())|
                && r == Batch.Batch(old(server.Pending())[..n])
                && server.Pending() == old(server.Pending())[n..]
                && server.offset == Int64(old(server.offset) + |EncDirs(old(server.Pending())[..n])|)
                && (done <==> n == 0)
    {
      hide EncDir, EncDirs, Fit, Leading, DecDirs, WfDir, Int64, Readdir.Pending;
      NoRecords();
      ghost var all, room := server.Pending(), Room();
      assert all[..0] == [] && all[0..] == all;
      if done {
        return Batch.Batch([]);
      }
      LeadingAfter(all, room, room);
      var c := session.Read(server, fid, buflen, nread);
      ghost var n := Fit(all, room);
      if c.EndOfFile? {
        assert n == 0 by { EmptyChunk(all[..n]); }
        done := true;
        return Batch.Batch([]);
      }
      if !c.Bytes? {
        return ReadError;
      }
      EmptyChunk(all[..n]);
      Int64Add(nread + |c.data|, 0);
      nread := Int64(nread + |c.data|);
      DirsBack(all[..n]);
      var ret, end := DecodeChunk(c.data);
      done := |ret| == 0;
      match end {
        case AtEnd => r := Batch.Batch(ret);
        case Failed(e) => r := DecodeError(ret, e);
        case Crashed => r := DecodePanic;
      }
    }
  }

  lemma EmptyChunk(ds: seq<Dir>)
    ensures EncDirs(ds) == [] <==> ds == []
  {
  }

  lemma {:induction false} EncDirsConcat(a: seq<Dir>, b: seq<Dir>)
    ensures EncDirs(a + b) == EncDirs(a) + EncDirs(b)
  {
    hide EncDir;
    if a == [] {
      assert a + b == b;
    } else {
      EncDirsConcat(a[1..], b);
      assert (a + b)[1..] == a[1..] + b;
    }
  }

  /** One more batch after the first k entries. */
  lemma ListStep(all: seq<Dir>, k: nat, room: nat)
    requires k <= |all|
    ensures var n := Fit(all[k..], room);
            && k + n <= |all| && all[..k] + all[k..][..n] == all[..k + n] && all[k..][n..] == all[k + n..]
            && Leading(all[k..], room) == n + Leading(all[k + n..], room)
            && |EncDirs(all[..k + n])| == |EncDirs(all[..k])| + |EncDirs(all[k..][..n])|
            && (n == 0 <==> Leading(all[k..], room) == 0)
  {
    hide EncDir, Leading, Fit, EncDirs;
    LeadingAfter(all[k..], room, room);
    var n := Fit(all[k..], room);
    assert all[..k] + all[k..][..n] == all[..k + n];
    assert all[k..][n..] == all[k + n..];
    EncDirsConcat(all[..k], all[k..][..n]);
  }

  /** Calling Next until it returns nothing or fails.  It succeeds if and only if the connection is up and
      its msize is at least 23; then it lists the entries up to the first whose record is larger than
      what the server may fill, hence all of them exactly when every record fits, and the offset is the
      number of bytes delivered.  Otherwise it fails with nothing listed. */
  method List(dir: OpenDir) returns (out: seq<Dir>, ok: bool)
    requires dir.Valid() && !dir.done && dir.server.offset == 0
    modifies dir, dir.server, dir.server.src, dir.session, dir.session.client, dir.session.server
    ensures dir.Valid() && (ok <==> old(dir.session.Serves()))
    ensures !ok ==> out == [] && dir.server.Pending() == old(dir.server.Pending())
    ensures ok ==>
              && dir.done && !dir.session.closed
              && out <= old(dir.server.Pending()) && |out| == Leading(old(dir.server.Pending()), old(dir.Room()))
              && (out == old(dir.server.Pending()) <==>
                    forall d <- old(dir.server.Pending()) :: |EncDir(d)| <= old(dir.Room()))
              && dir.server.offset == Int64(|EncDirs(out)|)
  {
    hide EncDir, WfDir, Leading, Fit, EncDirs, Readdir.Pending, Int64;
    out, ok := [], true;
    ghost var all, room, serves := dir.server.Pending(), dir.Room(), dir.session.Serves();
    LeadingBound(all, room);
    assert all[..0] == [] && all[0..] == all;
    NoRecords();
    StartOffset();
    while !dir.done && ok
      invariant dir.Valid() && dir.Room() == room && (ok ==> dir.session.Serves() == serves)
      invariant (dir.done ==> serves) && (!ok ==> !serves && out == [])
      invariant |out| <= |all| && out == all[..|out|] && dir.server.Pending() == all[|out|..]
      invariant |out| + Leading(all[|out|..], room) == Leading(all, room)
      invariant dir.server.offset == Int64(|EncDirs(all[..|out|])|)
      invariant |out| > 0 ==> serves
      decreases |all| - |out|, !dir.done, ok
    {
      ListStep(all, |out|, room);
      Int64Add(|EncDirs(all[..|out|])|, |EncDirs(all[|out|..][..Fit(all[|out|..], room)])|);
      var b := dir.Next();
      if b.ReadError? {
        ok := false;
      } else {
        out := out + b.dirs;
      }
    }
  }

  lemma StartOffset()
    ensures Int64(0) == 0
  {
  }

  /** End to end, for any batches, buffer size, msize and session limit: below msize 23 the listing
      fails; from 23 on the client gets the batches' entries once each, in order, up to the first whose
      record is larger than what the server may fill. */
  method ListDirectory(batches: seq<seq<Dir>>, fid: u32, buflen: u32, msize: u32, limit: int)
    returns (out: seq<Dir>, ok: bool)
    requires forall d <- Entries(batches) :: WfDir(d)
    ensures ok <==> msize >= 23
    ensures !ok ==> out == []
    ensures var room := Channels.Room(buflen, msize, limit);
            ok ==>
              && out <= Entries(batches) && |out| == Leading(Entries(batches), room)
              && (out == Entries(batches) <==> forall d <- Entries(batches) :: |EncDir(d)| <= room)
  {
    hide EncDir, WfDir, Leading, Entries;
    var src := new Source(batches);
    var server := new Readdir(src);
    var session := new Session(msize, limit);
    StartOffset();
    var dir := new OpenDir(session, server, fid, buflen);
    out, ok := List(dir);
  }
}
