/** The 9P2000 messages (messages.go, errors.go) and Fcalls (fcall.go) on the wire. */
module Messages {
  import opened Common
  import opened Codec

  datatype Message =
    | Tversion(msize: u32, version: bytes)
    | Rversion(msize: u32, version: bytes)
    | Tauth(afid: u32, uname: bytes, aname: bytes)
    | Rauth(qid: Qid)
    | Tattach(fid: u32, afid: u32, uname: bytes, aname: bytes)
    | Rattach(qid: Qid)
    | Rerror(ename: bytes)
    | Tflush(oldtag: u16)
    | Rflush
    | Twalk(fid: u32, newfid: u32, wnames: seq<bytes>)
    | Rwalk(qids: seq<Qid>)
    | Topen(fid: u32, mode: u8)
    | Ropen(qid: Qid, iounit: u32)
    | Tcreate(fid: u32, name: bytes, perm: u32, mode: u8)
    | Rcreate(qid: Qid, iounit: u32)
    | Tread(fid: u32, offset: u64, count: u32)
    | Rread(data: bytes)
    | Twrite(fid: u32, offset: u64, data: bytes)
    | Rwrite(count: u32)
    | Tclunk(fid: u32)
    | Rclunk
    | Tremove(fid: u32)
    | Rremove
    | Tstat(fid: u32)
    | Rstat(stat: Dir)
    | Twstat(fid: u32, stat: Dir)
    | Rwstat

  datatype Fcall = Fcall(typ: u8, tag: u16, msg: Message)

  function Type(m: Message): u8 {
    match m
    case Tversion(_, _) => 100 case Rversion(_, _) => 101
    case Tauth(_, _, _) => 102 case Rauth(_) => 103
    case Tattach(_, _, _, _) => 104 case Rattach(_) => 105
    case Rerror(_) => 107
    case Tflush(_) => 108 case Rflush => 109
    case Twalk(_, _, _) => 110 case Rwalk(_) => 111
    case Topen(_, _) => 112 case Ropen(_, _) => 113
    case Tcreate(_, _, _, _) => 114 case Rcreate(_, _) => 115
    case Tread(_, _, _) => 116 case Rread(_) => 117
    case Twrite(_, _, _) => 118 case Rwrite(_) => 119
    case Tclunk(_) => 120 case Rclunk => 121
    case Tremove(_) => 122 case Rremove => 123
    case Tstat(_) => 124 case Rstat(_) => 125
    case Twstat(_, _) => 126 case Rwstat => 127
  }

  /** The fields of a message in wire order.  Rstat and Twstat carry a second length before the
      Dir, whose own encoding starts with a length as well (see BUGS of stat(5)). */
  function Fields(m: Message): seq<Field> {
    match m
    case Tversion(n, v) => [U32(n), Str(v)]
    case Rversion(n, v) => [U32(n), Str(v)]
    case Tauth(f, u, a) => [U32(f), Str(u), Str(a)]
    case Rauth(q) => [QidF(q)]
    case Tattach(f, g, u, a) => [U32(f), U32(g), Str(u), Str(a)]
    case Rattach(q) => [QidF(q)]
    case Rerror(e) => [Str(e)]
    case Tflush(t) => [U16(t)]
    case Rflush => []
    case Twalk(f, g, ns) => [U32(f), U32(g), Strs(ns)]
    case Rwalk(qs) => [Qids(qs)]
    case Topen(f, o) => [U32(f), U8(o)]
    case Ropen(q, u) => [QidF(q), U32(u)]
    case Tcreate(f, n, p, o) => [U32(f), Str(n), U32(p), U8(o)]
    case Rcreate(q, u) => [QidF(q), U32(u)]
    case Tread(f, o, c) => [U32(f), U64(o), U32(c)]
    case Rread(d) => [Data(d)]
    case Twrite(f, o, d) => [U32(f), U64(o), Data(d)]
    case Rwrite(c) => [U32(c)]
    case Tclunk(f) => [U32(f)]
    case Rclunk => []
    case Tremove(f) => [U32(f)]
    case Rremove => []
    case Tstat(f) => [U32(f)]
    case Rstat(d) => [U16(|EncDir(d)| % 0x1_0000), DirF(d)]
    case Twstat(f, d) => [U32(f), U16(|EncDir(d)| % 0x1_0000), DirF(d)]
    case Rwstat => []
  }

  /** What the decoder expects after a type byte (newMessage); None for the unknown ones. */
  function Shapes(typ: u8): Option<seq<Shape>> {
    if typ == 100 || typ == 101 then Some([SU32, SStr])
    else if typ == 102 then Some([SU32, SStr, SStr])
    else if typ == 103 || typ == 105 then Some([SQid])
    else if typ == 104 then Some([SU32, SU32, SStr, SStr])
    else if typ == 107 then Some([SStr])
    else if typ == 108 then Some([SU16])
    else if typ == 109 || typ == 121 || typ == 123 || typ == 127 then Some([])
    else if typ == 110 then Some([SU32, SU32, SStrs])
    else if typ == 111 then Some([SQids])
    else if typ == 112 then Some([SU32, SU8])
    else if typ == 113 || typ == 115 then Some([SQid, SU32])
    else if typ == 114 then Some([SU32, SStr, SU32, SU8])
    else if typ == 116 then Some([SU32, SU64, SU32])
    else if typ == 117 then Some([SData])
    else if typ == 118 then Some([SU32, SU64, SData])
    else if typ == 119 || typ == 120 || typ == 122 || typ == 124 then Some([SU32])
    else if typ == 125 then Some([SU16, SDir])
    else if typ == 126 then Some([SU32, SU16, SDir])
    else None
  }

  /** Puts decoded fields back into a message. */
  function Build(typ: u8, vs: seq<Field>): Option<Message> {
    match (typ, |vs|)
    case (100, 2) => if vs[0].U32? && vs[1].Str? then Some(Tversion(vs[0].n32, vs[1].str)) else None
    case (101, 2) => if vs[0].U32? && vs[1].Str? then Some(Rversion(vs[0].n32, vs[1].str)) else None
    case (102, 3) =>
      if vs[0].U32? && vs[1].Str? && vs[2].Str? then Some(Tauth(vs[0].n32, vs[1].str, vs[2].str)) else None
    case (103, 1) => if vs[0].QidF? then Some(Rauth(vs[0].qid)) else None
    case (104, 4) =>
      if vs[0].U32? && vs[1].U32? && vs[2].Str? && vs[3].Str?
      then Some(Tattach(vs[0].n32, vs[1].n32, vs[2].str, vs[3].str)) else None
    case (105, 1) => if vs[0].QidF? then Some(Rattach(vs[0].qid)) else None
    case (107, 1) => if vs[0].Str? then Some(Rerror(vs[0].str)) else None
    case (108, 1) => if vs[0].U16? then Some(Tflush(vs[0].n16)) else None
    case (109, 0) => Some(Rflush)
    case (110, 3) =>
      if vs[0].U32? && vs[1].U32? && vs[2].Strs? then Some(Twalk(vs[0].n32, vs[1].n32, vs[2].strs)) else None
    case (111, 1) => if vs[0].Qids? then Some(Rwalk(vs[0].qids)) else None
    case (112, 2) => if vs[0].U32? && vs[1].U8? then Some(Topen(vs[0].n32, vs[1].n8)) else None
    case (113, 2) => if vs[0].QidF? && vs[1].U32? then Some(Ropen(vs[0].qid, vs[1].n32)) else None
    case (114, 4) =>
      if vs[0].U32? && vs[1].Str? && vs[2].U32? && vs[3].U8?
      then Some(Tcreate(vs[0].n32, vs[1].str, vs[2].n32, vs[3].n8)) else None
    case (115, 2) => if vs[0].QidF? && vs[1].U32? then Some(Rcreate(vs[0].qid, vs[1].n32)) else None
    case (116, 3) =>
      if vs[0].U32? && vs[1].U64? && vs[2].U32? then Some(Tread(vs[0].n32, vs[1].n64, vs[2].n32)) else None
    case (117, 1) => if vs[0].Data? then Some(Rread(vs[0].data)) else None
    case (118, 3) =>
      if vs[0].U32? && vs[1].U64? && vs[2].Data? then Some(Twrite(vs[0].n32, vs[1].n64, vs[2].data)) else None
    case (119, 1) => if vs[0].U32? then Some(Rwrite(vs[0].n32)) else None
    case (120, 1) => if vs[0].U32? then Some(Tclunk(vs[0].n32)) else None
    case (121, 0) => Some(Rclunk)
    case (122, 1) => if vs[0].U32? then Some(Tremove(vs[0].n32)) else None
    case (123, 0) => Some(Rremove)
    case (124, 1) => if vs[0].U32? then Some(Tstat(vs[0].n32)) else None
    case (125, 2) => if vs[1].DirF? then Some(Rstat(vs[1].dir)) else None
    case (126, 3) => if vs[0].U32? && vs[2].DirF? then Some(Twstat(vs[0].n32, vs[2].dir)) else None
    case (127, 0) => Some(Rwstat)
    case _ => None
  }

  function Encode(f: Fcall): bytes {
    LE(f.typ, 1) + (LE(f.tag, 2) + EncAll(Fields(f.msg)))
  }

  function Decode(b: bytes): Result<Fcall> {
    var (typ, b1) :- DecNum(b, 1);
    var (tag, b2) :- DecNum(b1, 2);
    match Shapes(typ)
    case None => Err(UnknownType, b2)
    case Some(ss) =>
      var (vs, rest) :- DecAll(ss, b2);
      match Build(typ, vs)
      case None => Err(UnknownType, rest)
      case Some(m) => Ok(Fcall(typ, tag, m), rest)
  }

  /** The type byte is that of the message, and every length fits its prefix. */
  predicate WfFcall(f: Fcall) {
    f.typ == Type(f.msg) && forall v <- Fields(f.msg) :: Wf(v)
  }

  lemma BuildBack(m: Message)
    ensures Build(Type(m), Fields(m)) == Some(m)
    ensures Shapes(Type(m)) == Some(ShapesOf(Fields(m)))
  {
    hide EncDir;
    assert ShapesOf(Fields(m)) == Shapes(Type(m)).value;
  }

  /** Decoding an encoded Fcall followed by anything gives the Fcall back, and leaves exactly
      what followed. */
  lemma RoundTrip(f: Fcall, s: bytes)
    requires WfFcall(f)
    ensures Decode(Encode(f) + s) == Ok(f, s)
  {
    hide LE, DecNum, EncAll, DecAll, Shapes, Build, Fields, Wf;
    var fs := EncAll(Fields(f.msg));
    assert Encode(f) + s == LE(f.typ, 1) + (LE(f.tag, 2) + (fs + s));
    NumBack(f.typ, 1, LE(f.tag, 2) + (fs + s));
    NumBack(f.tag, 2, fs + s);
    FieldsBack(Fields(f.msg), s);
    BuildBack(f.msg);
  }

  /** No encoding is the beginning of another. */
  lemma PrefixFree(f: Fcall, g: Fcall, s: bytes, t: bytes)
    requires WfFcall(f) && WfFcall(g) && Encode(f) + s == Encode(g) + t
    ensures f == g && s == t
  {
    RoundTrip(f, s);
    RoundTrip(g, t);
  }
}
