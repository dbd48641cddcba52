/** The 9P2000 wire encoding (encoding.go) of the values in types.go, fcall.go and messages.go. */
module Codec {

  type byte = b: int | 0 <= b < 0x100
  type u8 = n: int | 0 <= n < 0x100
  type u16 = n: int | 0 <= n < 0x1_0000
  type u32 = n: int | 0 <= n < 0x1_0000_0000
  type u64 = n: int | 0 <= n < 0x1_0000_0000_0000_0000

  type bytes = seq<byte>

  datatype Qid = Qid(typ: u8, version: u32, path: u64)

  datatype Dir = Dir(typ: u16, dev: u32, qid: Qid, mode: u32, atime: u32, mtime: u32, length: u64,
                     name: bytes, uid: bytes, gid: bytes, muid: bytes)

  /** A value handed to the encoder: one case of its type switch. */
  datatype Field =
    | U8(n8: u8) | U16(n16: u16) | U32(n32: u32) | U64(n64: u64)
    | Data(data: bytes)
    | Str(str: bytes)
    | Strs(strs: seq<bytes>)
    | QidF(qid: Qid)
    | Qids(qids: seq<Qid>)
    | DirF(dir: Dir)

  /** A target handed to the decoder. */
  datatype Shape = SU8 | SU16 | SU32 | SU64 | SData | SStr | SStrs | SQid | SQids | SDir

  datatype Error = EOF | UnexpectedEOF | UnknownType

  /** A decoded value or an error, and the bytes not read. */
  datatype Result<+T> = Ok(value: T, rest: bytes) | Err(err: Error, rest: bytes)
  {
    predicate IsFailure() {
      Err?
    }
    function PropagateFailure<U>(): Result<U>
      requires Err?
    {
      Err(err, rest)
    }
    function Extract(): (T, bytes)
      requires Ok?
    {
      (value, rest)
    }
  }

  // ---------------------------------------------------------------- fixed-width numbers

  function Pow256(w: nat): (p: nat)
    ensures p > 0
  {
    if w == 0 then 1 else 256 * Pow256(w - 1)
  }

  /** The low `w` bytes of n, least significant first. */
  function LE(n: nat, w: nat): (r: bytes)
    ensures |r| == w
  {
    if w == 0 then [] else [n % 256] + LE(n / 256, w - 1)
  }

  function UnLE(b: bytes): nat {
    if b == [] then 0 else b[0] + 256 * UnLE(b[1..])
  }

  lemma {:induction false} LERoundTrip(n: nat, w: nat)
    requires n < Pow256(w)
    ensures UnLE(LE(n, w)) == n
  {
    if w > 0 {
      LERoundTrip(n / 256, w - 1);
      assert LE(n, w)[1..] == LE(n / 256, w - 1);
    }
  }

  /** Byte i is digit i of n in base 256. */
  lemma {:induction false} LEAt(n: nat, w: nat, i: nat)
    requires i < w
    ensures LE(n, w)[i] == n / Pow256(i) % 256
  {
    if i > 0 {
      LEAt(n / 256, w - 1, i - 1);
      DivTwice(n, Pow256(i - 1));
    }
  }

  lemma DivTwice(n: nat, p: nat)
    requires p > 0
    ensures n / 256 / p == n / (256 * p)
  {
    var q, r := n / 256 / p, n / 256 % p;
    assert n / 256 == q * p + r;
    var m := 256 * r + n % 256;
    assert n == q * (256 * p) + m;
    assert 0 <= m < 256 * p;
    DivUnique(n, 256 * p, q, m);
  }

  lemma DivUnique(n: nat, d: nat, q: nat, r: nat)
    requires n == q * d + r && r < d
    ensures n / d == q
  {
    var e: int := n / d - q;
    assert n == n / d * d + n % d;
    assert e * d == r - n % d;
    assert e >= 1 ==> e * d >= d;
    assert e <= -1 ==> e * d <= (-1) * d;
  }

  lemma {:induction false} UnLEBound(b: bytes)
    ensures UnLE(b) < Pow256(|b|)
  {
    if b != [] {
      UnLEBound(b[1..]);
    }
  }

  // ---------------------------------------------------------------- encoding

  /** A string: its length modulo 2^16, then all its bytes. */
  function EncStr(b: bytes): bytes {
    LE(|b| % 0x1_0000, 2) + b
  }

  function EncStrs(bs: seq<bytes>): bytes {
    if bs == [] then [] else EncStr(bs[0]) + EncStrs(bs[1..])
  }

  function EncQid(q: Qid): (r: bytes)
    ensures |r| == 13
  {
    LE(q.typ, 1) + LE(q.version, 4) + LE(q.path, 8)
  }

  function EncQids(qs: seq<Qid>): (r: bytes)
    ensures |r| == 13 * |qs|
  {
    if qs == [] then [] else EncQid(qs[0]) + EncQids(qs[1..])
  }

  /** The fields of a Dir in order, without the leading length. */
  function EncDirBody(d: Dir): bytes {
    LE(d.typ, 2) + (LE(d.dev, 4) + (EncQid(d.qid) + (LE(d.mode, 4) + (LE(d.atime, 4) + (LE(d.mtime, 4) +
    (LE(d.length, 8) + (EncStr(d.name) + (EncStr(d.uid) + (EncStr(d.gid) + EncStr(d.muid))))))))))
  }

  function EncDir(d: Dir): bytes {
    LE(|EncDirBody(d)| % 0x1_0000, 2) + EncDirBody(d)
  }

  function Enc(v: Field): bytes {
    match v
    case U8(n) => LE(n, 1)
    case U16(n) => LE(n, 2)
    case U32(n) => LE(n, 4)
    case U64(n) => LE(n, 8)
    case Data(b) => LE(|b| % 0x1_0000_0000, 4) + b
    case Str(b) => EncStr(b)
    case Strs(bs) => LE(|bs| % 0x1_0000, 2) + EncStrs(bs)
    case QidF(q) => EncQid(q)
    case Qids(qs) => LE(|qs| % 0x1_0000, 2) + EncQids(qs)
    case DirF(d) => EncDir(d)
  }

  function EncAll(vs: seq<Field>): bytes {
    if vs == [] then [] else Enc(vs[0]) + EncAll(vs[1..])
  }

  // ---------------------------------------------------------------- decoding

  /** io.ReadFull: EOF only when nothing at all could be read; a failure uses up the reader. */
  function Take(b: bytes, n: nat): Result<bytes> {
    if n <= |b| then Ok(b[..n], b[n..])
    else if |b| == 0 then Err(EOF, [])
    else Err(UnexpectedEOF, [])
  }

  function DecNum(b: bytes, w: nat): (r: Result<nat>)
    ensures r.Ok? ==> r.value < Pow256(w)
  {
    var (x, rest) :- Take(b, w);
    UnLEBound(x);
    Ok(UnLE(x), rest)
  }

  function DecStr(b: bytes): Result<bytes> {
    var (n, b1) :- DecNum(b, 2);
    Take(b1, n)
  }

  function DecStrs(b: bytes, n: nat): Result<seq<bytes>>
    decreases n
  {
    if n == 0 then Ok([], b)
    else
      var (s, b1) :- DecStr(b);
      var (ss, rest) :- DecStrs(b1, n - 1);
      Ok([s] + ss, rest)
  }

  function DecQid(b: bytes): Result<Qid> {
    var (typ, b1) :- DecNum(b, 1);
    var (version, b2) :- DecNum(b1, 4);
    var (path, rest) :- DecNum(b2, 8);
    Ok(Qid(typ, version, path), rest)
  }

  function DecQids(b: bytes, n: nat): Result<seq<Qid>>
    decreases n
  {
    if n == 0 then Ok([], b)
    else
      var (q, b1) :- DecQid(b);
      var (qs, rest) :- DecQids(b1, n - 1);
      Ok([q] + qs, rest)
  }

  function DecDirBody(b: bytes): Result<Dir> {
    var (typ, b1) :- DecNum(b, 2);
    var (dev, b2) :- DecNum(b1, 4);
    var (qid, b3) :- DecQid(b2);
    var (mode, b4) :- DecNum(b3, 4);
    var (atime, b5) :- DecNum(b4, 4);
    var (mtime, b6) :- DecNum(b5, 4);
    var (length, b7) :- DecNum(b6, 8);
    var (name, b8) :- DecStr(b7);
    var (uid, b9) :- DecStr(b8);
    var (gid, b10) :- DecStr(b9);
    var (muid, rest) :- DecStr(b10);
    Ok(Dir(typ, dev, qid, mode, atime, mtime, length, name, uid, gid, muid), rest)
  }

  /** The whole record is taken off the reader first; bytes left in it are ignored. */
  function DecDir(b: bytes): Result<Dir> {
    var (n, b1) :- DecNum(b, 2);
    var (body, rest) :- Take(b1, n);
    match DecDirBody(body)
    case Err(e, _) => Err(e, rest)
    case Ok(d, _) => Ok(d, rest)
  }

  function Dec(s: Shape, b: bytes): Result<Field> {
    match s
    case SU8 => var (n, rest) :- DecNum(b, 1); Ok(U8(n), rest)
    case SU16 => var (n, rest) :- DecNum(b, 2); Ok(U16(n), rest)
    case SU32 => var (n, rest) :- DecNum(b, 4); Ok(U32(n), rest)
    case SU64 => var (n, rest) :- DecNum(b, 8); Ok(U64(n), rest)
    case SData =>
      var (n, b1) :- DecNum(b, 4);
      var (x, rest) :- Take(b1, n);
      Ok(Data(x), rest)
    case SStr => var (x, rest) :- DecStr(b); Ok(Str(x), rest)
    case SStrs =>
      var (n, b1) :- DecNum(b, 2);
      var (xs, rest) :- DecStrs(b1, n);
      Ok(Strs(xs), rest)
    case SQid => var (q, rest) :- DecQid(b); Ok(QidF(q), rest)
    case SQids =>
      var (n, b1) :- DecNum(b, 2);
      var (qs, rest) :- DecQids(b1, n);
      Ok(Qids(qs), rest)
    case SDir => var (d, rest) :- DecDir(b); Ok(DirF(d), rest)
  }

  function DecAll(ss: seq<Shape>, b: bytes): Result<seq<Field>>
    decreases |ss|
  {
    if ss == [] then Ok([], b)
    else
      var (v, b1) :- Dec(ss[0], b);
      var (vs, rest) :- DecAll(ss[1..], b1);
      Ok([v] + vs, rest)
  }

  // ---------------------------------------------------------------- well-formed values

  /** Lengths fit the prefixes that carry them. */
  predicate WfStr(b: bytes) {
    |b| < 0x1_0000
  }

  predicate WfDir(d: Dir) {
    && WfStr(d.name) && WfStr(d.uid) && WfStr(d.gid) && WfStr(d.muid)
    && |EncDirBody(d)| + 2 < 0x1_0000
  }

  predicate Wf(v: Field) {
    match v
    case Data(b) => |b| < 0x1_0000_0000
    case Str(b) => WfStr(b)
    case Strs(bs) => |bs| < 0x1_0000 && forall b <- bs :: WfStr(b)
    case Qids(qs) => |qs| < 0x1_0000
    case DirF(d) => WfDir(d)
    case _ => true
  }

  function ShapeOf(v: Field): Shape {
    match v
    case U8(_) => SU8 case U16(_) => SU16 case U32(_) => SU32 case U64(_) => SU64
    case Data(_) => SData case Str(_) => SStr case Strs(_) => SStrs
    case QidF(_) => SQid case Qids(_) => SQids case DirF(_) => SDir
  }

  function ShapesOf(vs: seq<Field>): seq<Shape> {
    seq(|vs|, i requires 0 <= i < |vs| => ShapeOf(vs[i]))
  }

  // ---------------------------------------------------------------- round trips, with any suffix

  lemma TakeBack(x: bytes, s: bytes)
    ensures Take(x + s, |x|) == Ok(x, s)
  {
    assert (x + s)[..|x|] == x && (x + s)[|x|..] == s;
  }

  lemma NumBack(n: nat, w: nat, s: bytes)
    requires n < Pow256(w)
    ensures DecNum(LE(n, w) + s, w) == Ok(n, s)
  {
    TakeBack(LE(n, w), s);
    LERoundTrip(n, w);
  }

  lemma StrBack(b: bytes, s: bytes)
    requires WfStr(b)
    ensures DecStr(EncStr(b) + s) == Ok(b, s)
  {
    hide LE, UnLE;
    assert EncStr(b) + s == LE(|b|, 2) + (b + s);
    NumBack(|b|, 2, b + s);
    TakeBack(b, s);
  }

  lemma {:induction false} StrsBack(bs: seq<bytes>, s: bytes)
    requires forall b <- bs :: WfStr(b)
    ensures DecStrs(EncStrs(bs) + s, |bs|) == Ok(bs, s)
  {
    hide EncStr, DecStr;
    if bs == [] {
      assert EncStrs(bs) + s == s;
    } else {
      assert EncStrs(bs) + s == EncStr(bs[0]) + (EncStrs(bs[1..]) + s);
      StrBack(bs[0], EncStrs(bs[1..]) + s);
      StrsBack(bs[1..], s);
      assert [bs[0]] + bs[1..] == bs;
    }
  }

  lemma QidBack(q: Qid, s: bytes)
    ensures DecQid(EncQid(q) + s) == Ok(q, s)
  {
    hide LE, DecNum;
    var s2 := LE(q.path, 8) + s;
    var s1 := LE(q.version, 4) + s2;
    assert EncQid(q) + s == LE(q.typ, 1) + s1;
    NumBack(q.typ, 1, s1);
    NumBack(q.version, 4, s2);
    NumBack(q.path, 8, s);
  }

  lemma {:induction false} QidsBack(qs: seq<Qid>, s: bytes)
    ensures DecQids(EncQids(qs) + s, |qs|) == Ok(qs, s)
  {
    hide EncQid, DecQid;
    if qs == [] {
      assert EncQids(qs) + s == s;
    } else {
      assert EncQids(qs) + s == EncQid(qs[0]) + (EncQids(qs[1..]) + s);
      QidBack(qs[0], EncQids(qs[1..]) + s);
      QidsBack(qs[1..], s);
      assert [qs[0]] + qs[1..] == qs;
    }
  }

  lemma DirBodyBack(d: Dir)
    requires WfStr(d.name) && WfStr(d.uid) && WfStr(d.gid) && WfStr(d.muid)
    ensures DecDirBody(EncDirBody(d)) == Ok(d, [])
  {
    hide LE, DecNum, EncQid, DecQid, EncStr, DecStr;
    var b10 := EncStr(d.muid);
    var b9 := EncStr(d.gid) + b10;
    var b8 := EncStr(d.uid) + b9;
    var b7 := EncStr(d.name) + b8;
    var b6 := LE(d.length, 8) + b7;
    var b5 := LE(d.mtime, 4) + b6;
    var b4 := LE(d.atime, 4) + b5;
    var b3 := LE(d.mode, 4) + b4;
    var b2 := EncQid(d.qid) + b3;
    var b1 := LE(d.dev, 4) + b2;
    NumBack(d.typ, 2, b1);
    NumBack(d.dev, 4, b2);
    QidBack(d.qid, b3);
    NumBack(d.mode, 4, b4);
    NumBack(d.atime, 4, b5);
    NumBack(d.mtime, 4, b6);
    NumBack(d.length, 8, b7);
    StrBack(d.name, b8);
    StrBack(d.uid, b9);
    StrBack(d.gid, b10);
    assert b10 + [] == b10;
    StrBack(d.muid, []);
  }

  lemma DirBack(d: Dir, s: bytes)
    requires WfDir(d)
    ensures DecDir(EncDir(d) + s) == Ok(d, s)
  {
    hide LE, DecNum, EncDirBody, DecDirBody;
    var body := EncDirBody(d);
    assert EncDir(d) + s == LE(|body|, 2) + (body + s);
    NumBack(|body|, 2, body + s);
    TakeBack(body, s);
    DirBodyBack(d);
  }

  lemma DataBack(b: bytes, s: bytes)
    requires |b| < 0x1_0000_0000
    ensures Dec(SData, Enc(Data(b)) + s) == Ok(Data(b), s)
  {
    hide LE, DecNum;
    assert Enc(Data(b)) + s == LE(|b|, 4) + (b + s);
    NumBack(|b|, 4, b + s);
    TakeBack(b, s);
  }

  lemma StrListBack(bs: seq<bytes>, s: bytes)
    requires Wf(Strs(bs))
    ensures Dec(SStrs, Enc(Strs(bs)) + s) == Ok(Strs(bs), s)
  {
    hide LE, DecNum, EncStrs, DecStrs;
    assert Enc(Strs(bs)) + s == LE(|bs|, 2) + (EncStrs(bs) + s);
    NumBack(|bs|, 2, EncStrs(bs) + s);
    StrsBack(bs, s);
  }

  lemma QidListBack(qs: seq<Qid>, s: bytes)
    requires Wf(Qids(qs))
    ensures Dec(SQids, Enc(Qids(qs)) + s) == Ok(Qids(qs), s)
  {
    hide LE, DecNum, EncQids, DecQids;
    assert Enc(Qids(qs)) + s == LE(|qs|, 2) + (EncQids(qs) + s);
    NumBack(|qs|, 2, EncQids(qs) + s);
    QidsBack(qs, s);
  }

  lemma FieldBack(v: Field, s: bytes)
    requires Wf(v)
    ensures Dec(ShapeOf(v), Enc(v) + s) == Ok(v, s)
  {
    hide LE, DecNum, EncDir, DecDir, EncStr, DecStr, EncQid, DecQid, EncStrs, DecStrs, EncQids, DecQids, Take;
    match v {
      case U8(n) => NumBack(n, 1, s);
      case U16(n) => NumBack(n, 2, s);
      case U32(n) => NumBack(n, 4, s);
      case U64(n) => NumBack(n, 8, s);
      case Data(b) => DataBack(b, s);
      case Str(b) => StrBack(b, s);
      case Strs(bs) => StrListBack(bs, s);
      case QidF(q) => QidBack(q, s);
      case Qids(qs) => QidListBack(qs, s);
      case DirF(d) => DirBack(d, s);
    }
  }

  lemma {:induction false} FieldsBack(vs: seq<Field>, s: bytes)
    requires forall v <- vs :: Wf(v)
    ensures DecAll(ShapesOf(vs), EncAll(vs) + s) == Ok(vs, s)
    decreases |vs|
  {
    hide Enc, Dec, Wf;
    if vs == [] {
      assert EncAll(vs) + s == s;
    } else {
      assert EncAll(vs) + s == Enc(vs[0]) + (EncAll(vs[1..]) + s);
      FieldBack(vs[0], EncAll(vs[1..]) + s);
      FieldsBack(vs[1..], s);
      assert ShapesOf(vs)[1..] == ShapesOf(vs[1..]);
      assert [vs[0]] + vs[1..] == vs;
    }
  }
}
