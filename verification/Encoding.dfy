/** The loops of encoding.go: an encoder that appends to a writer, a decoder that consumes a reader
    and the wrapping 32-bit size computation, each proved against the wire format in Codec. */
module Encoding {
  import opened Common
  import opened Codec
  import opened Messages
  import Layout

  // ---------------------------------------------------------------- composite values as field lists

  function QidFields(q: Qid): seq<Field> {
    [U8(q.typ), U32(q.version), U64(q.path)]
  }

  function QidElements(qs: seq<Qid>): seq<Field> {
    seq(|qs|, i requires 0 <= i < |qs| => QidF(qs[i]))
  }

  function DirFields(d: Dir): seq<Field> {
    [U16(d.typ)] + ([U32(d.dev)] + ([QidF(d.qid)] + ([U32(d.mode)] + ([U32(d.atime)] + ([U32(d.mtime)] +
    ([U64(d.length)] + ([Str(d.name)] + ([Str(d.uid)] + ([Str(d.gid)] + [Str(d.muid)])))))))))
  }

  /** How deep the encoder recurses on a value. */
  function Nest(v: Field): nat {
    match v
    case Data(_) => 1 case Strs(_) => 1 case QidF(_) => 1
    case Qids(_) => 2 case DirF(_) => 2
    case _ => 0
  }

  ghost function Depth(vs: seq<Field>): nat {
    if exists v <- vs :: Nest(v) == 2 then 2
    else if exists v <- vs :: Nest(v) == 1 then 1
    else 0
  }

  lemma FlatElements(d: Dir)
    ensures Depth(DirFields(d)) < 2
  {
  }

  lemma {:induction false} EncAllConcat(a: seq<Field>, b: seq<Field>)
    ensures EncAll(a + b) == EncAll(a) + EncAll(b)
  {
    hide Enc;
    if a == [] {
      assert a + b == b;
    } else {
      EncAllConcat(a[1..], b);
      assert (a + b)[1..] == a[1..] + b;
    }
  }

  lemma EncOne(v: Field)
    ensures EncAll([v]) == Enc(v)
  {
    hide Enc;
    assert EncAll([v]) == Enc(v) + EncAll([v][1..]);
  }

  lemma EncCons(v: Field, vs: seq<Field>)
    ensures EncAll([v] + vs) == Enc(v) + EncAll(vs)
  {
    EncAllConcat([v], vs);
    EncOne(v);
  }

  lemma EncSnoc(vs: seq<Field>, i: nat)
    requires i < |vs|
    ensures EncAll(vs[..i + 1]) == EncAll(vs[..i]) + Enc(vs[i])
  {
    hide Enc;
    assert vs[..i + 1] == vs[..i] + [vs[i]];
    EncAllConcat(vs[..i], [vs[i]]);
    EncOne(vs[i]);
  }

  lemma EncQidFields(q: Qid)
    ensures EncAll(QidFields(q)) == EncQid(q)
  {
    hide LE;
    var a, b, c := U8(q.typ), U32(q.version), U64(q.path);
    assert QidFields(q) == [a] + ([b] + [c]);
    EncCons(a, [b] + [c]);
    EncCons(b, [c]);
    EncOne(c);
  }

  lemma {:induction false} EncQidElements(qs: seq<Qid>)
    ensures EncAll(QidElements(qs)) == EncQids(qs)
  {
    if qs != [] {
      EncQidElements(qs[1..]);
      assert QidElements(qs)[1..] == QidElements(qs[1..]);
    }
  }

  lemma EncDirFields(d: Dir)
    ensures EncAll(DirFields(d)) == EncDirBody(d)
  {
    hide LE, EncStr, EncQid, EncAll;
    var f10 := [Str(d.muid)];
    EncOne(Str(d.muid));
    EncCons(Str(d.gid), f10);
    var f9 := [Str(d.gid)] + f10;
    EncCons(Str(d.uid), f9);
    var f8 := [Str(d.uid)] + f9;
    EncCons(Str(d.name), f8);
    var f7 := [Str(d.name)] + f8;
    EncCons(U64(d.length), f7);
    var f6 := [U64(d.length)] + f7;
    EncCons(U32(d.mtime), f6);
    var f5 := [U32(d.mtime)] + f6;
    EncCons(U32(d.atime), f5);
    var f4 := [U32(d.atime)] + f5;
    EncCons(U32(d.mode), f4);
    var f3 := [U32(d.mode)] + f4;
    EncCons(QidF(d.qid), f3);
    var f2 := [QidF(d.qid)] + f3;
    EncCons(U32(d.dev), f2);
    EncCons(U16(d.typ), [U32(d.dev)] + f2);
  }

  lemma {:induction false} EncStrsSnoc(bs: seq<bytes>, i: nat)
    requires i < |bs|
    ensures EncStrs(bs[..i + 1]) == EncStrs(bs[..i]) + EncStr(bs[i])
    decreases i
  {
    hide EncStr;
    if i > 0 {
      EncStrsSnoc(bs[1..], i - 1);
      assert bs[1..][..i] == bs[..i + 1][1..] && bs[1..][..i - 1] == bs[..i][1..];
    } else {
      assert bs[..1][1..] == [];
    }
  }

  // ---------------------------------------------------------------- size9p

  lemma AddMod(a: nat, b: nat)
    ensures (a % M32 + b % M32) % M32 == (a + b) % M32
  {
    assert a == M32 * (a / M32) + a % M32 && b == M32 * (b / M32) + b % M32;
    assert a + b == M32 * (a / M32 + b / M32) + (a % M32 + b % M32);
  }

  /** size9p: the sum wraps like a uint32, so it is the length of the encoding modulo 2^32. */
  method Size9p(vs: seq<Field>) returns (s: u32)
    ensures s == |EncAll(vs)| % M32
    decreases Depth(vs)
  {
    hide EncAll, Enc;
    s := 0;
    assert EncAll(vs[..0]) == [] by { EncNone(); }
    for i := 0 to |vs|
      invariant s == |EncAll(vs[..i])| % M32
    {
      var n := SizeOne(vs[i]);
      EncSnoc(vs, i);
      AddMod(|EncAll(vs[..i])|, |Enc(vs[i])|);
      s := (s + n) % M32;
    }
    assert vs[..|vs|] == vs;
  }

  lemma EncNone()
    ensures EncAll([]) == []
  {
  }

  method SizeOne(v: Field) returns (n: u32)
    ensures n == |Enc(v)| % M32
    decreases Nest(v), 1
  {
    hide LE, EncAll, EncDirBody, EncStr, EncStrs, EncQid, EncQids, DirFields;
    match v {
      case U8(_) => n := 1;
      case U16(_) => n := 2;
      case U32(_) => n := 4;
      case U64(_) => n := 8;
      case Data(b) => n := (4 + |b|) % M32;
      case Str(b) =>
        n := (2 + |b|) % M32;
        EncStrLength(b);
      case Strs(bs) => n := SizeStrs(bs);
      case QidF(q) =>
        n := Size9p(QidFields(q));
        EncQidFields(q);
      case Qids(qs) =>
        n := Size9p(QidElements(qs));
        EncQidElements(qs);
        AddMod(2, |EncQids(qs)|);
        n := (2 + n) % M32;
      case DirF(d) =>
        FlatElements(d);
        n := Size9p(DirFields(d));
        EncDirFields(d);
        AddMod(2, |EncDirBody(d)|);
        n := (n + 2) % M32;
    }
  }

  method SizeStrs(bs: seq<bytes>) returns (n: u32)
    ensures n == |Enc(Strs(bs))| % M32
    decreases 1, 0
  {
    hide LE, EncAll, EncStr;
    n := 2;
    for i := 0 to |bs|
      invariant n == (2 + |EncStrs(bs[..i])|) % M32
    {
      var m := Size9p([Str(bs[i])]);
      EncOne(Str(bs[i]));
      EncStrsSnoc(bs, i);
      AddMod(2 + |EncStrs(bs[..i])|, |EncStr(bs[i])|);
      n := (n + m) % M32;
    }
    assert bs[..|bs|] == bs;
  }

  lemma EncStrLength(b: bytes)
    ensures |EncStr(b)| == 2 + |b|
  {
  }

  // ---------------------------------------------------------------- encoder

  lemma ModMod(n: nat)
    ensures n % M32 % 0x1_0000 == n % 0x1_0000
  {
    assert n == 0x1_0000 * (0x1_0000 * (n / M32)) + n % M32;
  }

  class Encoder {
    var wr: bytes

    constructor ()
      ensures wr == []
    {
      wr := [];
    }

    method Encode(vs: seq<Field>)
      modifies this
      ensures wr == old(wr) + EncAll(vs)
      decreases Depth(vs)
    {
      hide EncAll, Enc;
      EncNone();
      for i := 0 to |vs|
        invariant wr == old(wr) + EncAll(vs[..i])
      {
        EncodeOne(vs[i]);
        EncSnoc(vs, i);
      }
      assert vs[..|vs|] == vs;
    }

    method EncodeOne(v: Field)
      modifies this
      ensures wr == old(wr) + Enc(v)
      decreases Nest(v), 1
    {
      hide LE, EncAll, EncDirBody, EncQid, EncStrs, EncQids, EncDir;
      match v {
        case U8(n) => wr := wr + LE(n, 1);
        case U16(n) => wr := wr + LE(n, 2);
        case U32(n) => wr := wr + LE(n, 4);
        case U64(n) => wr := wr + LE(n, 8);
        case Data(b) =>
          Encode([U32(|b| % M32)]);
          EncOne(U32(|b| % M32));
          wr := wr + b;
        case Str(b) =>
          wr := wr + LE(|b| % 0x1_0000, 2);
          wr := wr + b;
        case Strs(bs) => EncodeStrs(bs);
        case QidF(q) =>
          Encode(QidFields(q));
          EncQidFields(q);
        case Qids(qs) => EncodeQids(qs);
        case DirF(d) => EncodeDir(d);
      }
    }

    method EncodeStrs(bs: seq<bytes>)
      modifies this
      ensures wr == old(wr) + Enc(Strs(bs))
      decreases 1, 0
    {
      hide LE, EncAll, EncStr;
      Encode([U16(|bs| % 0x1_0000)]);
      EncOne(U16(|bs| % 0x1_0000));
      ghost var head := wr;
      for i := 0 to |bs|
        invariant wr == head + EncStrs(bs[..i])
      {
        Encode([Str(bs[i])]);
        EncOne(Str(bs[i]));
        EncStrsSnoc(bs, i);
      }
      assert bs[..|bs|] == bs;
    }

    method EncodeQids(qs: seq<Qid>)
      modifies this
      ensures wr == old(wr) + Enc(Qids(qs))
      decreases 2, 0
    {
      hide LE, EncAll, EncQids;
      Encode([U16(|qs| % 0x1_0000)]);
      EncOne(U16(|qs| % 0x1_0000));
      Encode(QidElements(qs));
      EncQidElements(qs);
    }

    method EncodeDir(d: Dir)
      modifies this
      ensures wr == old(wr) + Enc(DirF(d))
      decreases 2, 0
    {
      hide LE, EncAll, EncDirBody, DirFields;
      var elements := DirFields(d);
      var n := Size9p(elements);
      EncDirFields(d);
      ModMod(|EncDirBody(d)|);
      var size := U16(n % 0x1_0000);
      FlatElements(d);
      Encode([size]);
      EncOne(size);
      Encode(elements);
    }
  }

  /** What Rstat and Twstat write before the Dir: fid (Twstat) and a second length. */
  lemma StatFields(d: Dir, fid: u32)
    ensures EncAll(Fields(Rstat(d))) == EncAll([U16(|EncAll([DirF(d)])| % 0x1_0000)]) + EncAll([DirF(d)])
    ensures EncAll(Fields(Twstat(fid, d))) ==
            EncAll([U32(fid)]) + (EncAll([U16(|EncAll([DirF(d)])| % 0x1_0000)]) + EncAll([DirF(d)]))
  {
    hide EncAll, EncDir, LE;
    EncOne(DirF(d));
    var size := U16(|EncDir(d)| % 0x1_0000);
    EncAllConcat([size], [DirF(d)]);
    assert [size] + [DirF(d)] == [size, DirF(d)];
    EncAllConcat([U32(fid)], [size, DirF(d)]);
    assert [U32(fid)] + [size, DirF(d)] == [U32(fid), size, DirF(d)];
  }

  /** An Fcall is its type, its tag and the fields of its message. */
  function FcallFields(f: Fcall): seq<Field> {
    [U8(f.typ)] + ([U16(f.tag)] + Fields(f.msg))
  }

  /** The message case of the encoder's switch, with the double length of Rstat and Twstat. */
  method EncodeMessage(e: Encoder, m: Message)
    modifies e
    ensures e.wr == old(e.wr) + EncAll(Fields(m))
  {
    hide EncAll, Depth, Fields;
    match m {
      case Rstat(d) =>
        EncodeStat(e, d);
        StatFields(d, 0);
      case Twstat(fid, d) =>
        e.Encode([U32(fid)]);
        EncodeStat(e, d);
        StatFields(d, fid);
      case _ => e.Encode(Fields(m));
    }
  }

  method EncodeStat(e: Encoder, d: Dir)
    modifies e
    ensures e.wr == old(e.wr) + (EncAll([U16(|EncAll([DirF(d)])| % 0x1_0000)]) + EncAll([DirF(d)]))
  {
    hide EncAll, Depth;
    var n := Size9p([DirF(d)]);
    ModMod(|EncAll([DirF(d)])|);
    e.Encode([U16(n % 0x1_0000)]);
    e.Encode([DirF(d)]);
  }

  /** The Fcall case: type, tag, message. */
  method EncodeFcall(e: Encoder, f: Fcall)
    modifies e
    ensures e.wr == old(e.wr) + Messages.Encode(f)
  {
    hide EncAll, Depth, LE, Fields;
    e.Encode([U8(f.typ), U16(f.tag)]);
    assert [U8(f.typ), U16(f.tag)] == [U8(f.typ)] + [U16(f.tag)];
    EncCons(U8(f.typ), [U16(f.tag)]);
    EncOne(U16(f.tag));
    EncodeMessage(e, f.msg);
  }

  lemma EncFcallFields(f: Fcall)
    ensures EncAll(FcallFields(f)) == Messages.Encode(f)
  {
    hide LE, EncAll, Fields;
    EncCons(U8(f.typ), [U16(f.tag)] + Fields(f.msg));
    EncCons(U16(f.tag), Fields(f.msg));
  }

  /** Marshal: the bytes written for an Fcall are its wire form. */
  method Marshal(f: Fcall) returns (p: bytes)
    ensures p == Messages.Encode(f)
    ensures f.typ == Type(f.msg) ==> Layout.Wire(p, f.tag, f.msg)
  {
    hide Messages.Encode, Layout.Wire;
    var enc := new Encoder();
    EncodeFcall(enc, f);
    p := enc.wr;
    if f.typ == Type(f.msg) {
      Layout.OnWire(f);
    }
  }

  /** Size: the length of the wire form, exactly when that is below 2^32. */
  method Size(f: Fcall) returns (n: u32)
    ensures n == |Messages.Encode(f)| % M32
    ensures n == |Messages.Encode(f)| <==> |Messages.Encode(f)| < M32
  {
    n := Size9p(FcallFields(f));
    EncFcallFields(f);
  }

  /** A well-formed message can still be too long for a 32-bit size: a read reply holding all the
      bytes a Data field may carry has size 6. */
  lemma SizeWraps(tag: u16, data: bytes)
    requires |data| == M32 - 1
    ensures WfFcall(Fcall(117, tag, Rread(data)))
    ensures |Messages.Encode(Fcall(117, tag, Rread(data)))| % M32 == 6
  {
    hide LE, EncAll;
    EncOne(Data(data));
  }

  /** Where the stat record of an Rstat or Twstat starts: after type, tag and (Twstat) fid. */
  function StatAt(m: Message): nat
    requires m.Rstat? || m.Twstat?
  {
    if m.Rstat? then 3 else 7
  }

  lemma StatTail(f: Fcall)
    requires f.msg.Rstat? || f.msg.Twstat?
    ensures var b, i, d := Messages.Encode(f), StatAt(f.msg), f.msg.stat;
            i <= |b| && b[i..] == LE(|EncDir(d)| % 0x1_0000, 2) + EncDir(d)
  {
    hide LE, EncAll, EncDir;
    var d := f.msg.stat;
    var size := U16(|EncDir(d)| % 0x1_0000);
    EncCons(size, [DirF(d)]);
    EncOne(DirF(d));
    assert [size, DirF(d)] == [size] + [DirF(d)];
    if f.msg.Twstat? {
      EncCons(U32(f.msg.fid), [size, DirF(d)]);
      assert Fields(f.msg) == [U32(f.msg.fid)] + [size, DirF(d)];
    }
  }

  /** Both lengths in front of a stat record equal the number of bytes that follow them. */
  lemma StatLengths(f: Fcall)
    requires WfFcall(f) && (f.msg.Rstat? || f.msg.Twstat?)
    ensures var b, i := Messages.Encode(f), StatAt(f.msg);
            && i + 4 <= |b|
            && DecNum(b[i..], 2) == Ok(|b| - i - 2, b[i + 2..])
            && DecNum(b[i + 2..], 2) == Ok(|b| - i - 4, b[i + 4..])
  {
    hide LE, DecNum, Messages.Encode, EncDirBody;
    var b, i := Messages.Encode(f), StatAt(f.msg);
    var body := EncDirBody(f.msg.stat);
    assert Wf(DirF(f.msg.stat)) by { assert DirF(f.msg.stat) in Fields(f.msg); }
    StatTail(f);
    NumBack(|body| + 2, 2, LE(|body|, 2) + body);
    NumBack(|body|, 2, body);
    assert b[i + 2..] == b[i..][2..] == LE(|body|, 2) + body;
    assert b[i + 4..] == b[i..][4..] == body;
  }

  // ---------------------------------------------------------------- decoder

  datatype Decoded<+T> = Done(value: T) | Failed(err: Error)
  {
    predicate IsFailure() {
      Failed?
    }
    function PropagateFailure<U>(): Decoded<U>
      requires Failed?
    {
      Failed(err)
    }
    function Extract(): T
      requires Done?
    {
      value
    }
  }

  /** The value or the error is the one wanted, and the reader is left where it should be. */
  predicate Agrees<T(==)>(want: Result<T>, got: Decoded<T>, rd: bytes) {
    match want
    case Ok(v, rest) => got == Done(v) && rd == rest
    case Err(e, rest) => got == Failed(e) && rd == rest
  }

  function Prepend<T>(xs: seq<T>, r: Result<seq<T>>): Result<seq<T>> {
    match r
    case Ok(ys, rest) => Ok(xs + ys, rest)
    case Err(e, rest) => Err(e, rest)
  }

  lemma PrependNil<T>(xs: seq<T>, r: Result<seq<T>>, rest: bytes)
    ensures Prepend([], r) == r && Prepend(xs, Ok([], rest)) == Ok(xs, rest)
  {
    assert r.Ok? ==> [] + r.value == r.value;
    assert xs + [] == xs;
  }

  lemma PrependSnoc<T>(xs: seq<T>, x: T, r: Result<seq<T>>)
    ensures Prepend(xs, Prepend([x], r)) == Prepend(xs + [x], r)
  {
    assert r.Ok? ==> xs + ([x] + r.value) == (xs + [x]) + r.value;
  }

  lemma {:induction false} DecAllConcat(a: seq<Shape>, b: seq<Shape>, x: bytes)
    ensures DecAll(a + b, x) ==
            match DecAll(a, x) {
              case Err(e, rest) => Err(e, rest)
              case Ok(vs, rest) => Prepend(vs, DecAll(b, rest))
            }
    decreases |a|
  {
    hide Dec;
    if a == [] {
      assert a + b == b;
      PrependNil<Field>([], DecAll(b, x), []);
    } else {
      assert (a + b)[1..] == a[1..] + b;
      var v := Dec(a[0], x);
      if v.Ok? {
        DecAllConcat(a[1..], b, v.rest);
        var t := DecAll(a[1..], v.rest);
        if t.Ok? {
          PrependCons(v.value, t.value, DecAll(b, t.rest));
        }
      }
    }
  }

  lemma PrependCons<T>(x: T, xs: seq<T>, r: Result<seq<T>>)
    ensures Prepend([x], Prepend(xs, r)) == Prepend([x] + xs, r)
  {
    assert r.Ok? ==> [x] + (xs + r.value) == ([x] + xs) + r.value;
  }

  class Decoder {
    var rd: bytes

    constructor (b: bytes)
      ensures rd == b
    {
      rd := b;
    }

    /** io.ReadFull */
    method ReadFull(n: nat) returns (r: Decoded<bytes>)
      modifies this
      ensures Agrees(Take(old(rd), n), r, rd)
    {
      if n <= |rd| {
        r := Done(rd[..n]);
        rd := rd[n..];
      } else {
        r := Failed(if |rd| == 0 then EOF else UnexpectedEOF);
        rd := [];
      }
    }

    method Number(w: nat) returns (r: Decoded<nat>)
      modifies this
      ensures Agrees(DecNum(old(rd), w), r, rd)
      ensures r.Done? ==> r.value < Pow256(w)
    {
      var b :- ReadFull(w);
      UnLEBound(b);
      r := Done(UnLE(b));
    }

    method Text() returns (r: Decoded<bytes>)
      modifies this
      ensures Agrees(DecStr(old(rd)), r, rd)
    {
      hide Take, DecNum;
      var n :- Number(2);
      r := ReadFull(n);
    }

    method Texts(n: nat) returns (r: Decoded<seq<bytes>>)
      modifies this
      ensures Agrees(DecStrs(old(rd), n), r, rd)
    {
      hide DecStr;
      var xs: seq<bytes> := [];
      ghost var want := DecStrs(rd, n);
      PrependNil(xs, want, []);
      for i := 0 to n
        invariant |xs| == i
        invariant want == Prepend(xs, DecStrs(rd, n - i))
      {
        var x :- Text();
        PrependSnoc(xs, x, DecStrs(rd, n - i - 1));
        xs := xs + [x];
      }
      PrependNil(xs, want, rd);
      r := Done(xs);
    }

    method OneQid() returns (r: Decoded<Qid>)
      modifies this
      ensures Agrees(DecQid(old(rd)), r, rd)
    {
      hide DecNum;
      var typ :- Number(1);
      var version :- Number(4);
      var path :- Number(8);
      r := Done(Qid(typ, version, path));
    }

    method ManyQids(n: nat) returns (r: Decoded<seq<Qid>>)
      modifies this
      ensures Agrees(DecQids(old(rd), n), r, rd)
    {
      hide DecQid;
      var xs: seq<Qid> := [];
      ghost var want := DecQids(rd, n);
      PrependNil(xs, want, []);
      for i := 0 to n
        invariant |xs| == i
        invariant want == Prepend(xs, DecQids(rd, n - i))
      {
        var x :- OneQid();
        PrependSnoc(xs, x, DecQids(rd, n - i - 1));
        xs := xs + [x];
      }
      PrependNil(xs, want, rd);
      r := Done(xs);
    }

    /** The fields of a Dir, off the reader of one record. */
    method DirBody() returns (r: Decoded<Dir>)
      modifies this
      ensures Agrees(DecDirBody(old(rd)), r, rd)
    {
      hide DecNum, DecQid, DecStr;
      var typ :- Number(2);
      var dev :- Number(4);
      var qid :- OneQid();
      var mode :- Number(4);
      var atime :- Number(4);
      var mtime :- Number(4);
      var length :- Number(8);
      var name :- Text();
      var uid :- Text();
      var gid :- Text();
      var muid :- Text();
      r := Done(Dir(typ, dev, qid, mode, atime, mtime, length, name, uid, gid, muid));
    }

    /** The whole record is read before its fields are decoded from it, by a decoder of their own. */
    method OneDir() returns (r: Decoded<Dir>)
      modifies this
      ensures Agrees(DecDir(old(rd)), r, rd)
    {
      hide DecNum, Take, DecDirBody;
      var n :- Number(2);
      var body :- ReadFull(n);
      var dec := new Decoder(body);
      r := dec.DirBody();
    }

    method DecodeOne(s: Shape) returns (r: Decoded<Field>)
      modifies this
      ensures Agrees(Dec(s, old(rd)), r, rd)
    {
      hide DecNum, Take, DecDir, DecStr, DecQid, DecStrs, DecQids;
      match s {
        case SU8 => var n :- Number(1); r := Done(U8(n));
        case SU16 => var n :- Number(2); r := Done(U16(n));
        case SU32 => var n :- Number(4); r := Done(U32(n));
        case SU64 => var n :- Number(8); r := Done(U64(n));
        case SData => var n :- Number(4); var x :- ReadFull(n); r := Done(Data(x));
        case SStr => var x :- Text(); r := Done(Str(x));
        case SStrs => var n :- Number(2); var xs :- Texts(n); r := Done(Strs(xs));
        case SQid => var q :- OneQid(); r := Done(QidF(q));
        case SQids => var n :- Number(2); var qs :- ManyQids(n); r := Done(Qids(qs));
        case SDir => var d :- OneDir(); r := Done(DirF(d));
      }
    }

    method Decode(ss: seq<Shape>) returns (r: Decoded<seq<Field>>)
      modifies this
      ensures Agrees(DecAll(ss, old(rd)), r, rd)
    {
      hide Dec;
      var vs: seq<Field> := [];
      ghost var want := DecAll(ss, rd);
      PrependNil(vs, want, []);
      assert ss[0..] == ss;
      for i := 0 to |ss|
        invariant |vs| == i
        invariant want == Prepend(vs, DecAll(ss[i..], rd))
      {
        assert ss[i..][1..] == ss[i + 1..];
        var v :- DecodeOne(ss[i]);
        PrependSnoc(vs, v, DecAll(ss[i + 1..], rd));
        vs := vs + [v];
      }
      PrependNil(vs, want, rd);
      r := Done(vs);
    }

    /** The fields of a message.  Before the Dir of an Rstat or Twstat a second length is consumed. */
    method DecodeMessage(typ: u8) returns (r: Decoded<seq<Field>>)
      requires Shapes(typ).Some?
      modifies this
      ensures Agrees(DecAll(Shapes(typ).value, old(rd)), r, rd)
    {
      hide DecAll, Dec;
      ghost var b := rd;
      if typ == 125 {
        DecAllConcat([SU16], [SDir], b);
        assert [SU16] + [SDir] == Shapes(typ).value;
        var size :- Decode([SU16]);
        var dir :- Decode([SDir]);
        r := Done(size + dir);
      } else if typ == 126 {
        DecAllConcat([SU32], [SU16, SDir], b);
        assert [SU32] + [SU16, SDir] == Shapes(typ).value;
        var fid :- Decode([SU32]);
        DecAllConcat([SU16], [SDir], rd);
        assert [SU16] + [SDir] == [SU16, SDir];
        var size :- Decode([SU16]);
        var dir :- Decode([SDir]);
        r := Done(fid + (size + dir));
      } else {
        r := Decode(Shapes(typ).value);
      }
    }

    method DecodeFcall() returns (r: Decoded<Fcall>)
      modifies this
      ensures Agrees(Messages.Decode(old(rd)), r, rd)
    {
      hide DecNum, DecAll, Build, Shapes;
      var typ :- Number(1);
      var tag :- Number(2);
      var shapes := Shapes(typ);
      if shapes.None? {
        return Failed(UnknownType);
      }
      var vs :- DecodeMessage(typ);
      var m := Build(typ, vs);
      r := if m.Some? then Done(Fcall(typ, tag, m.value)) else Failed(UnknownType);
    }
  }

  /** Unmarshal into an Fcall; bytes after the message are ignored. */
  method Unmarshal(p: bytes) returns (r: Decoded<Fcall>)
    ensures match Messages.Decode(p) {
              case Ok(f, _) => r == Done(f)
              case Err(e, _) => r == Failed(e)
            }
  {
    hide Messages.Decode;
    var dec := new Decoder(p);
    r := dec.DecodeFcall();
  }
}
