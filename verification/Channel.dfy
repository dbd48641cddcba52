/** Framing and msize handling (channel.go) and the read handler's clamp (ssesssion.go). */
module Channels {
  import opened Common
  import opened Codec
  import opened Messages
  import Encoding
  import Layout

  // ---------------------------------------------------------------- truncation

  datatype Truncated = Fits(fcall: Fcall) | Overflow(size: nat)

  function Min(a: int, b: int): int {
    if a <= b then a else b
  }

  /** msgmsize: four bytes of length and the 32-bit size of the Fcall. */
  function MsgSize(f: Fcall): nat {
    4 + |Encode(f)| % M32
  }

  /** The rewritten Count of a Tread: as much as leaves room for the reply's 11 bytes of header, the
      subtraction being one of uint32 values. */
  function ReadCount(count: u32, msize: u32): u32 {
    Min(count, (msize - 11) % M32)
  }

  /** maybeTruncate, as what the caller is left with. */
  function Truncate(f: Fcall, msize: u32): Truncated {
    match f.msg
    case Tread(fid, offset, count) =>
      Fits(f.(msg := Tread(fid, offset, ReadCount(count, msize))))
    case Twrite(fid, offset, data) =>
      if MsgSize(f) <= msize then Fits(f)
      else if |data| < MsgSize(f) - msize then Overflow(MsgSize(f) - msize)
      else Fits(f.(msg := Twrite(fid, offset, data[..|data| - (MsgSize(f) - msize)])))
    case _ =>
      if MsgSize(f) <= msize then Fits(f) else Overflow(MsgSize(f) - msize)
  }

  lemma WrapCases(count: u32, msize: u32)
    ensures var overflow := (11 + count - msize) % M32;
            ReadCount(count, msize) == if count < overflow then count else count - overflow
  {
    var x := 11 + count - msize;
    assert x % M32 == if x < 0 then x + M32 else if x < M32 then x else x - M32;
  }

  // ---------------------------------------------------------------- sizes of the messages that are rewritten

  lemma ReadLength(f: Fcall)
    requires f.msg.Tread?
    ensures |Encode(f)| == 19
  {
    hide LE, EncAll;
    var a, b, c := U32(f.msg.fid), U64(f.msg.offset), U32(f.msg.count);
    assert Fields(f.msg) == [a] + ([b] + [c]);
    Encoding.EncCons(a, [b] + [c]);
    Encoding.EncCons(b, [c]);
    Encoding.EncOne(c);
  }

  lemma WriteLength(f: Fcall)
    requires f.msg.Twrite?
    ensures |Encode(f)| == 19 + |f.msg.data|
  {
    hide LE, EncAll;
    var a, b, c := U32(f.msg.fid), U64(f.msg.offset), Data(f.msg.data);
    assert Fields(f.msg) == [a] + ([b] + [c]);
    Encoding.EncCons(a, [b] + [c]);
    Encoding.EncCons(b, [c]);
    Encoding.EncOne(c);
  }

  lemma ReplyLength(f: Fcall)
    requires f.msg.Rread?
    ensures |Encode(f)| == 7 + |f.msg.data|
  {
    hide LE, EncAll;
    Encoding.EncOne(Data(f.msg.data));
  }

  lemma ErrorLength(f: Fcall)
    requires f.msg.Rerror?
    ensures |Encode(f)| == 5 + |f.msg.ename|
  {
    hide LE, EncAll;
    Encoding.EncOne(Str(f.msg.ename));
  }

  // ---------------------------------------------------------------- what truncation guarantees

  /** A message let through is the message given, except for the Count of a Tread, and for the Data of
      a Twrite, of which it keeps a prefix.  One that is not is reported with its exact excess, unless its
      size wrapped. */
  lemma TruncateKeeps(f: Fcall, msize: u32)
    ensures var t := Truncate(f, msize);
            match t
            case Fits(g) =>
              if f.msg.Tread? then g.msg.Tread? && g == f.(msg := f.msg.(count := g.msg.count))
              else if f.msg.Twrite? then
                g.msg.Twrite? && g == f.(msg := f.msg.(data := g.msg.data)) && g.msg.data <= f.msg.data
              else g == f
            case Overflow(n) => |Encode(f)| < M32 ==> n == 4 + |Encode(f)| - msize
  {
    hide Encode;
  }

  /** The Count of a Tread let through is the greatest that is no more than was asked for and whose
      reply, with its 11 bytes of header, fits msize; below 11 the subtraction wraps and the limit is
      2^32 higher. */
  lemma ReadKeepsMost(f: Fcall, msize: u32, c: u32)
    requires f.msg.Tread?
    ensures var t := Truncate(f, msize);
            && t.Fits? && t.fcall.msg.Tread?
            && (c <= t.fcall.msg.count <==>
                c <= f.msg.count && c + 11 <= (if msize >= 11 then msize else msize + M32))
  {
    hide Encode;
    assert (msize - 11) % M32 == if msize >= 11 then msize - 11 else msize - 11 + M32;
  }

  /** Truncation keeps a message well formed. */
  lemma TruncateWf(f: Fcall, msize: u32)
    requires WfFcall(f) && Truncate(f, msize).Fits?
    ensures WfFcall(Truncate(f, msize).fcall)
  {
    hide Encode;
    if f.msg.Twrite? {
      assert Data(f.msg.data) in Fields(f.msg);
    }
  }

  /** A message let through occupies at most msize bytes on the wire exactly when its size did not
      wrap and it is not a Tread facing an msize below 23, the size of every Tread. */
  lemma FrameFitsIff(f: Fcall, msize: u32)
    requires Truncate(f, msize).Fits?
    ensures 4 + |Encode(Truncate(f, msize).fcall)| <= msize
       <==> if f.msg.Tread? then msize >= 23 else |Encode(f)| < M32
  {
    hide Encode;
    var g := Truncate(f, msize).fcall;
    if f.msg.Tread? {
      ReadLength(g);
    } else if f.msg.Twrite? {
      WriteLength(f);
      WriteLength(g);
    }
  }

  /** When a message is let through. */
  lemma FitsIff(f: Fcall, msize: u32)
    requires |Encode(f)| < M32
    ensures Truncate(f, msize).Fits?
       <==> f.msg.Tread? || (if f.msg.Twrite? then msize >= 23 else 4 + |Encode(f)| <= msize)
  {
    hide Encode;
    if f.msg.Twrite? {
      WriteLength(f);
    }
  }

  /** Truncating again changes nothing. */
  lemma TruncateIdempotent(f: Fcall, msize: u32)
    requires |Encode(f)| < M32 && Truncate(f, msize).Fits?
    ensures Truncate(Truncate(f, msize).fcall, msize) == Truncate(f, msize)
  {
    hide Encode;
    var g := Truncate(f, msize).fcall;
    if f.msg.Twrite? {
      WriteLength(f);
      WriteLength(g);
    }
  }

  /** A Twrite keeps the longest prefix of its data that fits. */
  lemma WriteKeepsLongestPrefix(f: Fcall, msize: u32, k: nat)
    requires f.msg.Twrite? && |Encode(f)| < M32 && Truncate(f, msize).Fits?
    requires k <= |f.msg.data|
    ensures var g := Truncate(f, msize).fcall;
            && g == f.(msg := f.msg.(data := g.msg.data))
            && g.msg.data <= f.msg.data
            && (4 + |Encode(f.(msg := f.msg.(data := f.msg.data[..k])))| <= msize <==> k <= |g.msg.data|)
  {
    hide Encode;
    WriteLength(f);
    WriteLength(Truncate(f, msize).fcall);
    WriteLength(f.(msg := f.msg.(data := f.msg.data[..k])));
  }

  // ---------------------------------------------------------------- reading and writing frames

  /** sendmsg: the length including itself, then the message. */
  function Frame(p: bytes): bytes {
    LE((|p| + 4) % M32, 4) + p
  }

  /** On the stream each message follows its length, which counts itself, in four bytes. */
  lemma FrameOnWire(p: bytes)
    requires |p| + 4 < M32
    ensures Layout.Num4At(Frame(p), 0, |p| + 4) && Frame(p)[4..] == p
  {
    hide LE, Layout.Num4At;
    Layout.Num4Written(|p| + 4, [], p);
    assert [] + (LE(|p| + 4, 4) + p) == LE(|p| + 4, 4) + p == Frame(p);
  }

  datatype MsgRead = Msg(n: nat, buf: bytes, rest: bytes) | Short(err: Error) | Crash

  /** readmsg on a stream b with buffer p: at most |p| bytes of the message are stored, over the old
      contents, and the rest of the message is skipped.  A length below 4 slices out of range. */
  function ReadMsg(b: bytes, p: bytes): MsgRead {
    match DecNum(b, 4)
    case Err(e, _) => Short(e)
    case Ok(size, b1) =>
      if size < 4 then Crash
      else
        var body := size - 4;
        var k := Min(body, |p|);
        match Take(b1, k)
        case Err(e, _) => Short(e)
        case Ok(x, b2) =>
          if body - k <= |b2| then Msg(size, x + p[k..], b2[body - k..]) else Short(EOF)
  }

  datatype Got = Message(fcall: Fcall) | TooLong(size: nat) | Bad(err: Error) | Panic

  /** ReadFcall's result, when readmsg gave m with a buffer as long as msize. */
  function Receive(m: MsgRead, msize: u32): Got {
    match m
    case Short(e) => Bad(e)
    case Crash => Panic
    case Msg(n, buf, _) =>
      if n > |buf| then TooLong(n - |buf|)
      else
        match Decode(buf[..n])
        case Err(e, _) => Bad(e)
        case Ok(f, _) =>
          match Truncate(f, msize)
          case Fits(g) => Message(g)
          case Overflow(size) => TooLong(size)
  }

  /** A frame of any size at the head of the stream is consumed exactly, whatever the buffer. */
  lemma ReadMsgFrame(p: bytes, buf: bytes, rest: bytes)
    requires |p| + 4 < M32
    ensures var k := Min(|p|, |buf|);
            ReadMsg(Frame(p) + rest, buf) == Msg(|p| + 4, p[..k] + buf[k..], rest)
  {
    hide LE, DecNum;
    var k := Min(|p|, |buf|);
    assert Frame(p) + rest == LE(|p| + 4, 4) + (p + rest);
    NumBack(|p| + 4, 4, p + rest);
    assert p + rest == p[..k] + (p[k..] + rest);
    TakeBack(p[..k], p[k..] + rest);
    assert (p[k..] + rest)[|p| - k..] == rest;
  }

  /** What a reader with this msize should make of a message some peer sent. */
  function Expected(f: Fcall, msize: u32): Got {
    if 4 + |Encode(f)| > msize then TooLong(4 + |Encode(f)| - msize)
    else
      match Truncate(f, msize)
      case Fits(g) => Message(g)
      case Overflow(size) => TooLong(size)
  }

  /** One Fcall off the wire: whatever stale bytes are in the buffer, it is delivered if it fits and
      otherwise reported with the exact excess; the stream is left at the next frame. */
  lemma ReadOne(f: Fcall, msize: u32, buf: bytes, rest: bytes)
    requires WfFcall(f) && |Encode(f)| + 4 < M32 && |buf| == msize
    ensures var m := ReadMsg(Frame(Encode(f)) + rest, buf);
            m.Msg? && m.rest == rest && |m.buf| == |buf| && Receive(m, msize) == Expected(f, msize)
  {
    hide Encode, Decode, Frame, ReadMsg, Truncate;
    var p := Encode(f);
    ReadMsgFrame(p, buf, rest);
    if |p| + 4 <= |buf| {
      var stale := buf[|p|..][..4];
      assert (p[..|p|] + buf[|p|..])[..|p| + 4] == p + stale;
      RoundTrip(f, stale);
    }
  }

  /** WriteFcall at one end, ReadFcall at the other, same msize: the reader gets exactly the message
      the writer truncated to, provided a Tread is not sent with an msize below 23; below it the
      reader reports every Tread as too long. */
  lemma Deliver(f: Fcall, msize: u32, buf: bytes, rest: bytes)
    requires WfFcall(f) && |Encode(f)| < M32 && |buf| == msize
    requires Truncate(f, msize).Fits?
    ensures var g := Truncate(f, msize).fcall;
            var m := ReadMsg(Frame(Encode(g)) + rest, buf);
            && m.Msg? && m.rest == rest && |m.buf| == |buf|
            && Receive(m, msize) == (if f.msg.Tread? && msize < 23 then TooLong(23 - msize) else Message(g))
  {
    hide Encode, Frame, ReadMsg, Receive, WfFcall, Truncate;
    var g := Truncate(f, msize).fcall;
    TruncateWf(f, msize);
    FrameFitsIff(f, msize);
    TruncateIdempotent(f, msize);
    SameKind(f, msize);
    if f.msg.Tread? {
      ReadLength(g);
    }
    ReadOne(g, msize, buf, rest);
  }

  lemma SameKind(f: Fcall, msize: u32)
    requires Truncate(f, msize).Fits?
    ensures f.msg.Tread? <==> Truncate(f, msize).fcall.msg.Tread?
  {
    hide Encode;
  }

  // ---------------------------------------------------------------- streams of frames

  function Stream(fs: seq<Fcall>): bytes {
    if fs == [] then [] else Frame(Encode(fs[0])) + Stream(fs[1..])
  }

  /** The results of n ReadFcalls in a row and what is left of the stream after them. */
  function ReadMany(n: nat, b: bytes, buf: bytes, msize: u32): (seq<Got>, bytes) {
    if n == 0 then ([], b)
    else
      var m := ReadMsg(b, buf);
      if !m.Msg? then ([Receive(m, msize)], b)
      else
        var (gs, rest) := ReadMany(n - 1, m.rest, m.buf, msize);
        ([Receive(m, msize)] + gs, rest)
  }

  /** Successive reads stay aligned with the frames of any stream: each message is delivered or
      reported too long on its own account, and neither disturbs the ones after it. */
  lemma {:induction false} ReadsStayAligned(fs: seq<Fcall>, msize: u32, buf: bytes, rest: bytes)
    requires forall f <- fs :: WfFcall(f) && |Encode(f)| + 4 < M32
    requires |buf| == msize
    ensures ReadMany(|fs|, Stream(fs) + rest, buf, msize) ==
            (seq(|fs|, i requires 0 <= i < |fs| => Expected(fs[i], msize)), rest)
    decreases |fs|
  {
    hide Encode, Frame, ReadMsg, Receive, Expected, WfFcall;
    var want := seq(|fs|, i requires 0 <= i < |fs| => Expected(fs[i], msize));
    if fs == [] {
      assert Stream(fs) + rest == rest;
    } else {
      var next := Stream(fs[1..]) + rest;
      assert Stream(fs) + rest == Frame(Encode(fs[0])) + next;
      ReadOne(fs[0], msize, buf, next);
      var m := ReadMsg(Frame(Encode(fs[0])) + next, buf);
      ReadsStayAligned(fs[1..], msize, m.buf, rest);
      assert want == [want[0]] + want[1..];
      assert want[1..] == seq(|fs[1..]|, i requires 0 <= i < |fs[1..]| => Expected(fs[1..][i], msize));
    }
  }

  function FrameStream(ps: seq<bytes>): bytes {
    if ps == [] then [] else Frame(ps[0]) + FrameStream(ps[1..])
  }

  /** n calls of readmsg in a row, each with the buffer the one before left; stops at an error. */
  function ReadFrames(n: nat, b: bytes, buf: bytes): (seq<MsgRead>, bytes) {
    if n == 0 then ([], b)
    else
      var m := ReadMsg(b, buf);
      if !m.Msg? then ([m], b)
      else
        var (ms, rest) := ReadFrames(n - 1, m.rest, m.buf);
        ([m] + ms, rest)
  }

  /** What readmsg makes of payload p with a buffer of this length: its size, including the header,
      and as much of it as the buffer holds. */
  predicate Holds(m: MsgRead, p: bytes, room: nat) {
    m.Msg? && m.n == |p| + 4 && |m.buf| == room && m.buf[..Min(|p|, room)] == p[..Min(|p|, room)]
  }

  /** The same for raw frames: whatever their payloads and however long the buffer, the k-th call
      reads the k-th frame. */
  lemma {:induction false} FramesStayAligned(ps: seq<bytes>, buf: bytes, rest: bytes)
    requires forall p <- ps :: |p| + 4 < M32
    ensures var r := ReadFrames(|ps|, FrameStream(ps) + rest, buf);
            && r.1 == rest && |r.0| == |ps|
            && forall i :: 0 <= i < |ps| ==> Holds(r.0[i], ps[i], |buf|)
    decreases |ps|
  {
    hide Frame, ReadMsg;
    if ps == [] {
      assert FrameStream(ps) + rest == rest;
    } else {
      var next := FrameStream(ps[1..]) + rest;
      assert FrameStream(ps) + rest == Frame(ps[0]) + next;
      ReadMsgFrame(ps[0], buf, next);
      var m := ReadMsg(Frame(ps[0]) + next, buf);
      FramesStayAligned(ps[1..], m.buf, rest);
    }
  }

  // ---------------------------------------------------------------- the channel

  class Channel {
    var msize: u32
    var rdbuf: bytes
    var brd: bytes
    var bwr: bytes

    ghost predicate Valid()
      reads this
    {
      |rdbuf| == msize
    }

    constructor (msize: u32)
      ensures Valid() && this.msize == msize && brd == [] && bwr == []
    {
      this.msize := msize;
      rdbuf := seq(msize, _ => 0);
      brd, bwr := [], [];
    }

    /** Shrinking keeps the start of the buffer; otherwise a new one is made. */
    method SetMSize(m: u32)
      modifies `msize, `rdbuf
      ensures Valid() && msize == m
      ensures m < |old(rdbuf)| ==> rdbuf <= old(rdbuf)
    {
      msize := m;
      if m < |rdbuf| {
        rdbuf := rdbuf[..m];
        return;
      }
      rdbuf := seq(m, _ => 0);
    }

    method MsgMSize(f: Fcall) returns (n: nat)
      ensures n == MsgSize(f)
    {
      var s: nat := Encoding.Size(f);
      n := 4 + s;
    }

    /** The Tread case; its arithmetic wraps at 2^32. */
    method RewriteCount(tag: u16, count: u32) returns (c: u32)
      ensures c == ReadCount(count, msize)
    {
      hide Encode;
      var reply := Fcall(117, tag, Rread([]));
      ReplyLength(reply);
      var size := MsgMSize(reply);
      assert size == 11;
      var overflow: u32 := (size + count - msize) % M32;
      WrapCases(count, msize);
      if count < overflow {
        return count;
      }
      c := count - overflow;
    }

    method MaybeTruncate(f: Fcall) returns (r: Truncated)
      ensures r == Truncate(f, msize)
    {
      hide Encode;
      match f.msg {
        case Tread(fid, offset, count) =>
          var c := RewriteCount(f.tag, count);
          r := Fits(f.(msg := Tread(fid, offset, c)));
        case Twrite(fid, offset, data) =>
          var size := MsgMSize(f);
          if size <= msize {
            return Fits(f);
          }
          var overflow := size - msize;
          if |data| < overflow {
            return Overflow(overflow);
          }
          r := Fits(f.(msg := Twrite(fid, offset, data[..|data| - overflow])));
        case _ =>
          var size := MsgMSize(f);
          if size > msize {
            return Overflow(size - msize);
          }
          r := Fits(f);
      }
    }

    method ReadMessage() returns (m: MsgRead)
      modifies `rdbuf, `brd
      ensures m == ReadMsg(old(brd), old(rdbuf))
      ensures m.Msg? ==> rdbuf == m.buf && brd == m.rest
      ensures |rdbuf| == |old(rdbuf)|
    {
      hide DecNum;
      var rd := new Encoding.Decoder(brd);
      var size := rd.Number(4);
      brd := rd.rd;
      if size.Failed? {
        return Short(size.err);
      }
      if size.value < 4 {
        return Crash;
      }
      var body := size.value - 4;
      var want := if body < |rdbuf| then body else |rdbuf|;
      var x := rd.ReadFull(want);
      brd := rd.rd;
      if x.Failed? {
        return Short(x.err);
      }
      rdbuf := x.value + rdbuf[want..];
      if body > want {
        if body - want > |brd| {
          brd := [];
          return Short(EOF);
        }
        brd := brd[body - want..];
      }
      m := Msg(size.value, rdbuf, brd);
    }

    method ReadFcall() returns (r: Got)
      requires Valid()
      modifies `rdbuf, `brd
      ensures Valid()
      ensures var m := ReadMsg(old(brd), old(rdbuf));
              r == Receive(m, msize) && (m.Msg? ==> brd == m.rest && rdbuf == m.buf)
    {
      hide ReadMsg, Decode, Truncate;
      var m := ReadMessage();
      match m {
        case Short(e) => return Bad(e);
        case Crash => return Panic;
        case Msg(n, _, _) =>
          if n > |rdbuf| {
            return TooLong(n - |rdbuf|);
          }
          var f := Encoding.Unmarshal(rdbuf[..n]);
          if f.Failed? {
            return Bad(f.err);
          }
          var t := MaybeTruncate(f.value);
          r := if t.Fits? then Message(t.fcall) else TooLong(t.size);
      }
    }

    method WriteFcall(f: Fcall) returns (r: Truncated)
      modifies `bwr
      ensures r == Truncate(f, msize)
      ensures bwr == old(bwr) + (if r.Fits? then Frame(Encode(r.fcall)) else [])
    {
      hide Encode, Truncate;
      r := MaybeTruncate(f);
      if r.Fits? {
        var p := Encoding.Marshal(r.fcall);
        bwr := bwr + LE((|p| + 4) % M32, 4);
        bwr := bwr + p;
      }
    }
  }

  /** What becomes of a message between two ends of equal msize: nothing is sent, or it arrives as
      truncated, or (a Tread that does not fit) it is reported too long. */
  function Delivered(f: Fcall, msize: u32): Option<Got> {
    match Truncate(f, msize)
    case Overflow(_) => None
    case Fits(g) => Some(if f.msg.Tread? && msize < 23 then TooLong(23 - msize) else Message(g))
  }

  /** One message written at one end, carried over, and read at the other. */
  method Transfer(from: Channel, to: Channel, f: Fcall) returns (r: Option<Got>)
    requires from != to && from.Valid() && to.Valid() && from.msize == to.msize && from.bwr == [] && to.brd == []
    requires WfFcall(f) && |Encode(f)| < M32
    modifies from`bwr, to`brd, to`rdbuf
    ensures r == Delivered(f, from.msize)
    ensures to.Valid() && from.bwr == [] && to.brd == []
  {
    hide Encode, Frame, ReadMsg, Receive, Truncate, WfFcall;
    ghost var msize := from.msize;
    var t := from.WriteFcall(f);
    if t.Overflow? {
      return None;
    }
    ghost var frame := Frame(Encode(t.fcall));
    assert [] + frame == frame && frame + [] == frame;
    Deliver(f, msize, to.rdbuf, []);
    to.brd, from.bwr := to.brd + from.bwr, [];
    var got := to.ReadFcall();
    r := Some(got);
  }

  // ---------------------------------------------------------------- the server's reply to a read

  /** The most data that both the request and the session's msize allow for. */
  function Clamp(count: nat, limit: int): nat {
    if limit < 11 then 0 else Min(count, limit - 11)
  }

  /** It is the greatest size that is no more than was asked for and whose reply, with 11 bytes of header,
      is within the limit; none at all when not even an empty reply is. */
  lemma ClampIsGreatest(count: nat, limit: int, n: nat)
    ensures n <= Clamp(count, limit) <==> n == 0 || (n <= count && n + 11 <= limit)
  {
  }

  /** The buffer size the handler of a Tread allocates; limit is the session's msize. */
  method ReadBuffer(count: u32, limit: int) returns (n: nat)
    ensures n == Clamp(count, limit)
  {
    var c: int := count;
    if c > limit - 11 {
      c := limit - 11;
      if c < 0 {
        c := 0;
      }
    }
    n := c;
  }

  /** A Tread as received, handled with any session limit by a File that stays within its buffer: the
      reply passes the same channel unchanged when the channel has room for an empty reply, and no
      reply whose size can be computed passes when it has not. */
  lemma ReplyFits(f: Fcall, msize: u32, limit: int, data: bytes)
    requires f.msg.Tread? && |data| <= Clamp(Truncate(f, msize).fcall.msg.count, limit)
    ensures var reply := Fcall(117, f.tag, Rread(data));
            && (msize >= 11 ==> Truncate(reply, msize) == Fits(reply))
            && (msize < 11 && |data| + 7 < M32 ==> Truncate(reply, msize) == Overflow(11 + |data| - msize))
  {
    hide Encode;
    ReplyLength(Fcall(117, f.tag, Rread(data)));
  }

  /** The buffer the server offers its File for a client's read of `count` bytes. */
  function Room(count: u32, msize: u32, limit: int): nat {
    Clamp(ReadCount(count, msize), limit)
  }

  /** The data of a read is bounded by the request, by the client's msize and by the server's. */
  lemma RoomIsGreatest(count: u32, msize: u32, limit: int, n: nat)
    requires msize >= 11
    ensures n <= Room(count, msize, limit) <==> n == 0 || (n <= count && n + 11 <= msize && n + 11 <= limit)
  {
    assert (msize - 11) % M32 == msize - 11;
  }

  /** One read from end to end over channels of equal msize: the server gets the request with the
      count it rewrites to, and the client gets exactly the data the File put into the buffer, which
      is never larger than what the client asked for. */
  lemma ReadExchange(tag: u16, fid: u32, offset: u64, count: u32, msize: u32, limit: int, data: bytes,
                     buf: bytes, rest: bytes, buf': bytes, rest': bytes)
    requires msize >= 23 && |buf| == |buf'| == msize && |data| <= Room(count, msize, limit)
    ensures Room(count, msize, limit) <= count
    ensures var request := Fcall(116, tag, Tread(fid, offset, count));
            var t := Truncate(request, msize);
            && t.Fits?
            && var m := ReadMsg(Frame(Encode(t.fcall)) + rest, buf);
               && m.Msg? && m.rest == rest
               && Receive(m, msize) == Message(Fcall(116, tag, Tread(fid, offset, ReadCount(count, msize))))
    ensures var reply := Fcall(117, tag, Rread(data));
            && Truncate(reply, msize) == Fits(reply)
            && var m := ReadMsg(Frame(Encode(reply)) + rest', buf');
               m.Msg? && m.rest == rest' && Receive(m, msize) == Message(reply)
  {
    hide Encode, Frame, ReadMsg, Receive;
    var request := Fcall(116, tag, Tread(fid, offset, count));
    ReadLength(request);
    Deliver(request, msize, buf, rest);
    var reply := Fcall(117, tag, Rread(data));
    ReplyFits(request, msize, limit, data);
    ReplyLength(reply);
    Deliver(reply, msize, buf', rest');
  }
}
