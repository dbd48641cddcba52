/** Where every value of a message lies on the wire, by byte offset, as section 5 of the Plan 9 manual lays
    it out.  The predicates are a reference for the encoder and do not mention it; the lemmas connect the
    two. */
module Layout {
  import opened Codec
  import opened Messages

  // ---------------------------------------------------------------- values at an offset

  predicate Num1At(b: bytes, i: nat, n: u8) {
    i + 1 <= |b| && b[i] == n
  }

  /** Numbers are little-endian. */
  predicate Num2At(b: bytes, i: nat, n: u16) {
    i + 2 <= |b| && b[i] == n % 0x100 && b[i + 1] == n / 0x100
  }

  predicate Num4At(b: bytes, i: nat, n: u32) {
    i + 4 <= |b| && Num2At(b, i, n % 0x1_0000) && Num2At(b, i + 2, n / 0x1_0000)
  }

  predicate Num8At(b: bytes, i: nat, n: u64) {
    i + 8 <= |b| && Num4At(b, i, n % 0x1_0000_0000) && Num4At(b, i + 4, n / 0x1_0000_0000)
  }

  predicate BytesAt(b: bytes, i: nat, x: bytes) {
    i + |x| <= |b| && b[i..i + |x|] == x
  }

  predicate StrAt(b: bytes, i: nat, x: bytes) {
    Num2At(b, i, |x| % 0x1_0000) && BytesAt(b, i + 2, x)
  }

  predicate DataAt(b: bytes, i: nat, x: bytes) {
    Num4At(b, i, |x| % 0x1_0000_0000) && BytesAt(b, i + 4, x)
  }

  /** The bytes taken by the first k strings. */
  function StrsSize(xs: seq<bytes>, k: nat): nat
    requires k <= |xs|
  {
    if k == 0 then 0 else StrsSize(xs, k - 1) + 2 + |xs[k - 1]|
  }

  predicate StrsAt(b: bytes, i: nat, xs: seq<bytes>) {
    Num2At(b, i, |xs| % 0x1_0000) && forall k :: 0 <= k < |xs| ==> StrAt(b, i + 2 + StrsSize(xs, k), xs[k])
  }

  predicate QidAt(b: bytes, i: nat, q: Qid) {
    Num1At(b, i, q.typ) && Num4At(b, i + 1, q.version) && Num8At(b, i + 5, q.path)
  }

  predicate QidsAt(b: bytes, i: nat, qs: seq<Qid>) {
    Num2At(b, i, |qs| % 0x1_0000) && forall k :: 0 <= k < |qs| ==> QidAt(b, i + 2 + 13 * k, qs[k])
  }

  function DirSize(d: Dir): nat {
    49 + |d.name| + |d.uid| + |d.gid| + |d.muid|
  }

  predicate DirAt(b: bytes, i: nat, d: Dir) {
    && Num2At(b, i, (DirSize(d) - 2) % 0x1_0000)
    && Num2At(b, i + 2, d.typ)
    && Num4At(b, i + 4, d.dev)
    && QidAt(b, i + 8, d.qid)
    && Num4At(b, i + 21, d.mode)
    && Num4At(b, i + 25, d.atime)
    && Num4At(b, i + 29, d.mtime)
    && Num8At(b, i + 33, d.length)
    && StrAt(b, i + 41, d.name)
    && StrAt(b, i + 43 + |d.name|, d.uid)
    && StrAt(b, i + 45 + |d.name| + |d.uid|, d.gid)
    && StrAt(b, i + 47 + |d.name| + |d.uid| + |d.gid|, d.muid)
  }

  // ---------------------------------------------------------------- messages

  /** The bytes of a message with this tag, by offset. */
  predicate Wire(b: bytes, tag: u16, m: Message) {
    && Num2At(b, 1, tag)
    && match m {
         case Tversion(msize, version) =>
           b[0] == 100 && |b| == 9 + |version| && Num4At(b, 3, msize) && StrAt(b, 7, version)
         case Rversion(msize, version) =>
           b[0] == 101 && |b| == 9 + |version| && Num4At(b, 3, msize) && StrAt(b, 7, version)
         case Tauth(afid, uname, aname) =>
           && b[0] == 102 && |b| == 11 + |uname| + |aname|
           && Num4At(b, 3, afid) && StrAt(b, 7, uname) && StrAt(b, 9 + |uname|, aname)
         case Rauth(qid) => b[0] == 103 && |b| == 16 && QidAt(b, 3, qid)
         case Tattach(fid, afid, uname, aname) =>
           && b[0] == 104 && |b| == 15 + |uname| + |aname|
           && Num4At(b, 3, fid) && Num4At(b, 7, afid) && StrAt(b, 11, uname) && StrAt(b, 13 + |uname|, aname)
         case Rattach(qid) => b[0] == 105 && |b| == 16 && QidAt(b, 3, qid)
         case Rerror(ename) => b[0] == 107 && |b| == 5 + |ename| && StrAt(b, 3, ename)
         case Tflush(oldtag) => b[0] == 108 && |b| == 5 && Num2At(b, 3, oldtag)
         case Rflush => b[0] == 109 && |b| == 3
         case Twalk(fid, newfid, wnames) =>
           && b[0] == 110 && |b| == 13 + StrsSize(wnames, |wnames|)
           && Num4At(b, 3, fid) && Num4At(b, 7, newfid) && StrsAt(b, 11, wnames)
         case Rwalk(qids) => b[0] == 111 && |b| == 5 + 13 * |qids| && QidsAt(b, 3, qids)
         case Topen(fid, mode) => b[0] == 112 && |b| == 8 && Num4At(b, 3, fid) && Num1At(b, 7, mode)
         case Ropen(qid, iounit) => b[0] == 113 && |b| == 20 && QidAt(b, 3, qid) && Num4At(b, 16, iounit)
         case Tcreate(fid, name, perm, mode) =>
           && b[0] == 114 && |b| == 14 + |name|
           && Num4At(b, 3, fid) && StrAt(b, 7, name) && Num4At(b, 9 + |name|, perm) && Num1At(b, 13 + |name|, mode)
         case Rcreate(qid, iounit) => b[0] == 115 && |b| == 20 && QidAt(b, 3, qid) && Num4At(b, 16, iounit)
         case Tread(fid, offset, count) =>
           b[0] == 116 && |b| == 19 && Num4At(b, 3, fid) && Num8At(b, 7, offset) && Num4At(b, 15, count)
         case Rread(data) => b[0] == 117 && |b| == 7 + |data| && DataAt(b, 3, data)
         case Twrite(fid, offset, data) =>
           && b[0] == 118 && |b| == 19 + |data|
           && Num4At(b, 3, fid) && Num8At(b, 7, offset) && DataAt(b, 15, data)
         case Rwrite(count) => b[0] == 119 && |b| == 7 && Num4At(b, 3, count)
         case Tclunk(fid) => b[0] == 120 && |b| == 7 && Num4At(b, 3, fid)
         case Rclunk => b[0] == 121 && |b| == 3
         case Tremove(fid) => b[0] == 122 && |b| == 7 && Num4At(b, 3, fid)
         case Rremove => b[0] == 123 && |b| == 3
         case Tstat(fid) => b[0] == 124 && |b| == 7 && Num4At(b, 3, fid)
         case Rstat(stat) =>
           b[0] == 125 && |b| == 5 + DirSize(stat) && Num2At(b, 3, DirSize(stat) % 0x1_0000) && DirAt(b, 5, stat)
         case Twstat(fid, stat) =>
           && b[0] == 126 && |b| == 9 + DirSize(stat)
           && Num4At(b, 3, fid) && Num2At(b, 7, DirSize(stat) % 0x1_0000) && DirAt(b, 9, stat)
         case Rwstat => b[0] == 127 && |b| == 3
       }
  }

  // ---------------------------------------------------------------- what the encoder writes, after a and before s

  /** Byte i of a number written after a. */
  lemma Digit(n: nat, w: nat, a: bytes, s: bytes, i: nat)
    requires i < w
    ensures (a + (LE(n, w) + s))[|a| + i] == n / Pow256(i) % 256
  {
    LEAt(n, w, i);
    hide LE;
  }

  lemma Powers()
    ensures Pow256(0) == 1 && Pow256(1) == 0x100 && Pow256(2) == 0x1_0000 && Pow256(3) == 0x100_0000
    ensures Pow256(4) == 0x1_0000_0000 && Pow256(5) == 0x100_0000_0000 && Pow256(6) == 0x1_0000_0000_0000
    ensures Pow256(7) == 0x100_0000_0000_0000 && Pow256(8) == 0x1_0000_0000_0000_0000
  {
    assert Pow256(2) == 0x1_0000;
    assert Pow256(4) == 0x1_0000_0000;
    assert Pow256(6) == 0x1_0000_0000_0000;
  }

  lemma Num1Written(n: u8, a: bytes, s: bytes)
    ensures Num1At(a + (LE(n, 1) + s), |a|, n)
  {
    Digit(n, 1, a, s, 0);
  }

  lemma Num2Written(n: u16, a: bytes, s: bytes)
    ensures Num2At(a + (LE(n, 2) + s), |a|, n)
  {
    Powers();
    Digit(n, 2, a, s, 0);
    Digit(n, 2, a, s, 1);
    hide LE, Pow256;
  }

  lemma Multiple(m: nat, q: nat)
    ensures (m + 256 * q) % 256 == m % 256
  {
  }

  lemma LowPair(n: u32, m: u16)
    requires m == n % 0x1_0000
    ensures n % 256 == m % 256 && n / 0x100 % 256 == m / 0x100
  {
    var q := n / 0x1_0000;
    Multiple(m, 256 * q);
    assert n / 0x100 == m / 0x100 + 256 * q;
    Multiple(m / 0x100, q);
  }

  lemma HighPair(n: u32, m: u16)
    requires m == n / 0x1_0000
    ensures n / 0x1_0000 % 256 == m % 256 && n / 0x100_0000 % 256 == m / 0x100
  {
    assert n / 0x100_0000 == m / 0x100;
  }

  /** Four digits are a four-byte number. */
  lemma FourDigits(b: bytes, i: nat, n: u32)
    requires i + 4 <= |b| && b[i] == n % 256 && b[i + 1] == n / 0x100 % 256
    requires b[i + 2] == n / 0x1_0000 % 256 && b[i + 3] == n / 0x100_0000 % 256
    ensures Num4At(b, i, n)
  {
    LowPair(n, n % 0x1_0000);
    HighPair(n, n / 0x1_0000);
  }

  lemma Num4Written(n: u32, a: bytes, s: bytes)
    ensures Num4At(a + (LE(n, 4) + s), |a|, n)
  {
    Powers();
    Digit(n, 4, a, s, 0);
    Digit(n, 4, a, s, 1);
    Digit(n, 4, a, s, 2);
    Digit(n, 4, a, s, 3);
    hide LE, Pow256, Num4At;
    FourDigits(a + (LE(n, 4) + s), |a|, n);
  }

  lemma LowDigits(n: u64, m: u32)
    requires m == n % 0x1_0000_0000
    ensures n % 256 == m % 256 && n / 0x100 % 256 == m / 0x100 % 256
    ensures n / 0x1_0000 % 256 == m / 0x1_0000 % 256 && n / 0x100_0000 % 256 == m / 0x100_0000 % 256
  {
    var q := n / 0x1_0000_0000;
    Multiple(m, 0x100_0000 * q);
    assert n / 0x100 == m / 0x100 + 256 * (0x1_0000 * q);
    Multiple(m / 0x100, 0x1_0000 * q);
    assert n / 0x1_0000 == m / 0x1_0000 + 256 * (0x100 * q);
    Multiple(m / 0x1_0000, 0x100 * q);
    assert n / 0x100_0000 == m / 0x100_0000 + 256 * q;
    Multiple(m / 0x100_0000, q);
  }

  lemma HighDigits(n: u64, m: u32)
    requires m == n / 0x1_0000_0000
    ensures n / 0x100_0000_0000 % 256 == m / 0x100 % 256
    ensures n / 0x1_0000_0000_0000 % 256 == m / 0x1_0000 % 256
    ensures n / 0x100_0000_0000_0000 % 256 == m / 0x100_0000 % 256
  {
  }

  lemma Num8Written(n: u64, a: bytes, s: bytes)
    ensures Num8At(a + (LE(n, 8) + s), |a|, n)
  {
    Powers();
    Digit(n, 8, a, s, 0);
    Digit(n, 8, a, s, 1);
    Digit(n, 8, a, s, 2);
    Digit(n, 8, a, s, 3);
    Digit(n, 8, a, s, 4);
    Digit(n, 8, a, s, 5);
    Digit(n, 8, a, s, 6);
    Digit(n, 8, a, s, 7);
    hide LE, Pow256, Num4At;
    LowDigits(n, n % 0x1_0000_0000);
    HighDigits(n, n / 0x1_0000_0000);
    FourDigits(a + (LE(n, 8) + s), |a|, n % 0x1_0000_0000);
    FourDigits(a + (LE(n, 8) + s), |a| + 4, n / 0x1_0000_0000);
  }

  lemma BytesWritten(x: bytes, a: bytes, s: bytes)
    ensures BytesAt(a + (x + s), |a|, x)
  {
    assert (a + (x + s))[|a|..|a| + |x|] == x;
  }

  lemma StrWritten(x: bytes, a: bytes, s: bytes)
    ensures |EncStr(x)| == 2 + |x|
    ensures StrAt(a + (EncStr(x) + s), |a|, x)
  {
    hide LE, Num2At;
    var n := LE(|x| % 0x1_0000, 2);
    assert a + (EncStr(x) + s) == a + (n + (x + s)) == (a + n) + (x + s);
    Num2Written(|x| % 0x1_0000, a, x + s);
    BytesWritten(x, a + n, s);
  }

  lemma DataWritten(x: bytes, a: bytes, s: bytes)
    ensures DataAt(a + (Enc(Data(x)) + s), |a|, x)
  {
    hide LE, Num4At;
    var n := LE(|x| % 0x1_0000_0000, 4);
    assert a + (Enc(Data(x)) + s) == a + (n + (x + s)) == (a + n) + (x + s);
    Num4Written(|x| % 0x1_0000_0000, a, x + s);
    BytesWritten(x, a + n, s);
  }

  lemma QidWritten(q: Qid, a: bytes, s: bytes)
    ensures QidAt(a + (EncQid(q) + s), |a|, q)
  {
    hide LE, Num1At, Num4At, Num8At;
    var x, y, z := LE(q.typ, 1), LE(q.version, 4), LE(q.path, 8);
    var b := a + (EncQid(q) + s);
    assert b == a + (x + (y + z + s)) == (a + x) + (y + (z + s)) == (a + x + y) + (z + s);
    Num1Written(q.typ, a, y + z + s);
    Num4Written(q.version, a + x, z + s);
    Num8Written(q.path, a + x + y, s);
  }

  /** The k-th string of a list, and where it starts. */
  lemma {:induction false} StrOfList(xs: seq<bytes>, k: nat, a: bytes, s: bytes)
    requires k < |xs|
    ensures StrAt(a + (EncStrs(xs) + s), |a| + StrsSize(xs, k), xs[k])
    decreases |xs|
  {
    hide EncStr, StrAt;
    var x, rest := EncStr(xs[0]), EncStrs(xs[1..]);
    assert a + (EncStrs(xs) + s) == a + (x + (rest + s)) == (a + x) + (rest + s);
    StrWritten(xs[0], a, rest + s);
    if k > 0 {
      StrOfList(xs[1..], k - 1, a + x, s);
      TailSize(xs, k);
    }
  }

  lemma {:induction false} TailSize(xs: seq<bytes>, k: nat)
    requires 0 < k <= |xs|
    ensures StrsSize(xs, k) == 2 + |xs[0]| + StrsSize(xs[1..], k - 1)
  {
    if k > 1 {
      TailSize(xs, k - 1);
    }
  }

  lemma {:induction false} ListSize(xs: seq<bytes>)
    ensures |EncStrs(xs)| == StrsSize(xs, |xs|)
  {
    if xs != [] {
      StrWritten(xs[0], [], []);
      ListSize(xs[1..]);
      TailSize(xs, |xs|);
    }
  }

  lemma StrsWritten(xs: seq<bytes>, a: bytes, s: bytes)
    ensures StrsAt(a + (Enc(Strs(xs)) + s), |a|, xs)
  {
    hide LE, Num2At, StrAt, EncStrs, StrsSize;
    var n, ys := LE(|xs| % 0x1_0000, 2), EncStrs(xs);
    var b := a + (Enc(Strs(xs)) + s);
    assert b == a + (n + (ys + s)) == (a + n) + (ys + s);
    Num2Written(|xs| % 0x1_0000, a, ys + s);
    forall k | 0 <= k < |xs| ensures StrAt(b, |a| + 2 + StrsSize(xs, k), xs[k]) {
      StrOfList(xs, k, a + n, s);
    }
  }

  lemma {:induction false} QidOfList(qs: seq<Qid>, k: nat, a: bytes, s: bytes)
    requires k < |qs|
    ensures QidAt(a + (EncQids(qs) + s), |a| + 13 * k, qs[k])
    decreases |qs|
  {
    hide EncQid, QidAt;
    var x, rest := EncQid(qs[0]), EncQids(qs[1..]);
    assert a + (EncQids(qs) + s) == a + (x + (rest + s)) == (a + x) + (rest + s);
    QidWritten(qs[0], a, rest + s);
    if k > 0 {
      QidOfList(qs[1..], k - 1, a + x, s);
    }
  }

  lemma QidsWritten(qs: seq<Qid>, a: bytes, s: bytes)
    ensures QidsAt(a + (Enc(Qids(qs)) + s), |a|, qs)
  {
    hide LE, Num2At, QidAt, EncQids;
    var n, ys := LE(|qs| % 0x1_0000, 2), EncQids(qs);
    var b := a + (Enc(Qids(qs)) + s);
    assert b == a + (n + (ys + s)) == (a + n) + (ys + s);
    Num2Written(|qs| % 0x1_0000, a, ys + s);
    forall k | 0 <= k < |qs| ensures QidAt(b, |a| + 2 + 13 * k, qs[k]) {
      QidOfList(qs, k, a + n, s);
    }
  }

  // ---------------------------------------------------------------- fields in a row

  predicate FieldAt(b: bytes, i: nat, v: Field) {
    match v
    case U8(n) => Num1At(b, i, n)
    case U16(n) => Num2At(b, i, n)
    case U32(n) => Num4At(b, i, n)
    case U64(n) => Num8At(b, i, n)
    case Data(x) => DataAt(b, i, x)
    case Str(x) => StrAt(b, i, x)
    case Strs(xs) => StrsAt(b, i, xs)
    case QidF(q) => QidAt(b, i, q)
    case Qids(qs) => QidsAt(b, i, qs)
    case DirF(d) => DirAt(b, i, d)
  }

  function FieldSize(v: Field): nat {
    match v
    case U8(_) => 1
    case U16(_) => 2
    case U32(_) => 4
    case U64(_) => 8
    case Data(x) => 4 + |x|
    case Str(x) => 2 + |x|
    case Strs(xs) => 2 + StrsSize(xs, |xs|)
    case QidF(_) => 13
    case Qids(qs) => 2 + 13 * |qs|
    case DirF(d) => DirSize(d)
  }

  lemma Shift(a: bytes, x: bytes, r: bytes, s: bytes)
    ensures a + ((x + r) + s) == a + (x + (r + s)) == (a + x) + (r + s)
  {
  }

  /** The four strings at the end of a Dir. */
  lemma NamesWritten(d: Dir, a: bytes, s: bytes)
    ensures var x := EncStr(d.name) + (EncStr(d.uid) + (EncStr(d.gid) + EncStr(d.muid)));
            var b := a + (x + s);
            && |x| == 8 + |d.name| + |d.uid| + |d.gid| + |d.muid|
            && StrAt(b, |a|, d.name)
            && StrAt(b, |a| + 2 + |d.name|, d.uid)
            && StrAt(b, |a| + 4 + |d.name| + |d.uid|, d.gid)
            && StrAt(b, |a| + 6 + |d.name| + |d.uid| + |d.gid|, d.muid)
  {
    hide EncStr, StrAt;
    var x0, x1, x2, x3 := EncStr(d.name), EncStr(d.uid), EncStr(d.gid), EncStr(d.muid);
    Shift(a, x0, x1 + (x2 + x3), s);
    Shift(a + x0, x1, x2 + x3, s);
    Shift(a + x0 + x1, x2, x3, s);
    StrWritten(d.name, a, x1 + (x2 + x3) + s);
    StrWritten(d.uid, a + x0, x2 + x3 + s);
    StrWritten(d.gid, a + x0 + x1, x3 + s);
    StrWritten(d.muid, a + x0 + x1 + x2, s);
  }

  /** The fields of a Dir from its mode on. */
  lemma DirTailWritten(d: Dir, a: bytes, s: bytes)
    ensures var x := LE(d.mode, 4) + (LE(d.atime, 4) + (LE(d.mtime, 4) + (LE(d.length, 8) +
                     (EncStr(d.name) + (EncStr(d.uid) + (EncStr(d.gid) + EncStr(d.muid)))))));
            var b := a + (x + s);
            && |x| == 28 + |d.name| + |d.uid| + |d.gid| + |d.muid|
            && Num4At(b, |a|, d.mode) && Num4At(b, |a| + 4, d.atime) && Num4At(b, |a| + 8, d.mtime)
            && Num8At(b, |a| + 12, d.length)
            && StrAt(b, |a| + 20, d.name)
            && StrAt(b, |a| + 22 + |d.name|, d.uid)
            && StrAt(b, |a| + 24 + |d.name| + |d.uid|, d.gid)
            && StrAt(b, |a| + 26 + |d.name| + |d.uid| + |d.gid|, d.muid)
  {
    hide LE, EncStr, StrAt, Num4At, Num8At;
    var x0, x1, x2, x3 := LE(d.mode, 4), LE(d.atime, 4), LE(d.mtime, 4), LE(d.length, 8);
    var x4 := EncStr(d.name) + (EncStr(d.uid) + (EncStr(d.gid) + EncStr(d.muid)));
    Shift(a, x0, x1 + (x2 + (x3 + x4)), s);
    Shift(a + x0, x1, x2 + (x3 + x4), s);
    Shift(a + x0 + x1, x2, x3 + x4, s);
    Shift(a + x0 + x1 + x2, x3, x4, s);
    Num4Written(d.mode, a, x1 + (x2 + (x3 + x4)) + s);
    Num4Written(d.atime, a + x0, x2 + (x3 + x4) + s);
    Num4Written(d.mtime, a + x0 + x1, x3 + x4 + s);
    Num8Written(d.length, a + x0 + x1 + x2, x4 + s);
    NamesWritten(d, a + x0 + x1 + x2 + x3, s);
  }

  lemma DirWritten(d: Dir, a: bytes, s: bytes)
    ensures |EncDir(d)| == DirSize(d)
    ensures DirAt(a + (EncDir(d) + s), |a|, d)
  {
    hide LE, EncStr, EncQid, StrAt, Num2At, Num4At, Num8At, QidAt;
    var x0, x1, x2 := LE(d.typ, 2), LE(d.dev, 4), EncQid(d.qid);
    var x3 := LE(d.mode, 4) + (LE(d.atime, 4) + (LE(d.mtime, 4) + (LE(d.length, 8) +
              (EncStr(d.name) + (EncStr(d.uid) + (EncStr(d.gid) + EncStr(d.muid)))))));
    assert EncDirBody(d) == x0 + (x1 + (x2 + x3));
    hide EncDirBody;
    var n := LE(|EncDirBody(d)| % 0x1_0000, 2);
    DirTailWritten(d, a + n + x0 + x1 + x2, s);
    Shift(a, n, x0 + (x1 + (x2 + x3)), s);
    Shift(a + n, x0, x1 + (x2 + x3), s);
    Shift(a + n + x0, x1, x2 + x3, s);
    Shift(a + n + x0 + x1, x2, x3, s);
    Num2Written(|EncDirBody(d)| % 0x1_0000, a, x0 + (x1 + (x2 + x3)) + s);
    Num2Written(d.typ, a + n, x1 + (x2 + x3) + s);
    Num4Written(d.dev, a + n + x0, x2 + x3 + s);
    QidWritten(d.qid, a + n + x0 + x1, x3 + s);
  }

  lemma FieldWritten(v: Field, a: bytes, s: bytes)
    ensures |Enc(v)| == FieldSize(v)
    ensures FieldAt(a + (Enc(v) + s), |a|, v)
  {
    hide LE, EncStr, EncQid, EncStrs, EncQids, EncDir;
    hide StrAt, Num1At, Num2At, Num4At, Num8At, QidAt, DataAt, StrsAt, QidsAt, DirAt, StrsSize;
    match v {
      case U8(n) => Num1Written(n, a, s);
      case U16(n) => Num2Written(n, a, s);
      case U32(n) => Num4Written(n, a, s);
      case U64(n) => Num8Written(n, a, s);
      case Data(x) => DataWritten(x, a, s);
      case Str(x) => StrWritten(x, a, s);
      case Strs(xs) => StrsWritten(xs, a, s); ListSize(xs);
      case QidF(q) => QidWritten(q, a, s);
      case Qids(qs) => QidsWritten(qs, a, s);
      case DirF(d) => DirWritten(d, a, s);
    }
  }

  /** The bytes taken by the first k fields. */
  function RowSize(vs: seq<Field>, k: nat): nat
    requires k <= |vs|
  {
    if k == 0 then 0 else RowSize(vs, k - 1) + FieldSize(vs[k - 1])
  }

  lemma {:induction false} RowTail(vs: seq<Field>, k: nat)
    requires 0 < k <= |vs|
    ensures RowSize(vs, k) == FieldSize(vs[0]) + RowSize(vs[1..], k - 1)
  {
    hide FieldSize;
    if k > 1 {
      RowTail(vs, k - 1);
    }
  }

  lemma {:induction false} RowLength(vs: seq<Field>)
    ensures |EncAll(vs)| == RowSize(vs, |vs|)
  {
    hide Enc, FieldSize;
    if vs != [] {
      FieldWritten(vs[0], [], []);
      RowLength(vs[1..]);
      RowTail(vs, |vs|);
    }
  }

  lemma {:induction false} RowWritten(vs: seq<Field>, k: nat, a: bytes)
    requires k < |vs|
    ensures FieldAt(a + EncAll(vs), |a| + RowSize(vs, k), vs[k])
    decreases |vs|
  {
    hide Enc, FieldAt, FieldSize;
    var x, rest := Enc(vs[0]), EncAll(vs[1..]);
    assert a + EncAll(vs) == a + (x + rest) == (a + x) + rest;
    FieldWritten(vs[0], a, rest);
    if k > 0 {
      RowWritten(vs[1..], k - 1, a + x);
      RowTail(vs, k);
    }
  }

  // ---------------------------------------------------------------- messages on the wire

  lemma Header(f: Fcall)
    ensures var b, r := Encode(f), EncAll(Fields(f.msg));
            && |b| == 3 + RowSize(Fields(f.msg), |Fields(f.msg)|) && b[0] == f.typ && Num2At(b, 1, f.tag)
            && exists a: bytes :: |a| == 3 && b == a + r
  {
    hide EncAll, Fields, RowSize, Num2At;
    var r := EncAll(Fields(f.msg));
    Num1Written(f.typ, [], LE(f.tag, 2) + r);
    Num2Written(f.tag, LE(f.typ, 1), r);
    assert [] + Encode(f) == Encode(f);
    hide LE;
    RowLength(Fields(f.msg));
    assert Encode(f) == (LE(f.typ, 1) + LE(f.tag, 2)) + r;
  }

  /** Field k of a message, after the type, the tag and the fields before it. */
  lemma FieldOnWire(f: Fcall, k: nat)
    requires k < |Fields(f.msg)|
    ensures FieldAt(Encode(f), 3 + RowSize(Fields(f.msg), k), Fields(f.msg)[k])
  {
    hide EncAll, Fields, RowSize, FieldAt, Encode;
    Header(f);
    var a: bytes :| |a| == 3 && Encode(f) == a + EncAll(Fields(f.msg));
    RowWritten(Fields(f.msg), k, a);
  }

  lemma One(f: Fcall, v: Field)
    requires Fields(f.msg) == [v]
    ensures |Encode(f)| == 3 + FieldSize(v) && FieldAt(Encode(f), 3, v)
  {
    hide Encode, FieldAt, Fields, FieldSize;
    Header(f);
    FieldOnWire(f, 0);
  }

  lemma Two(f: Fcall, v: Field, w: Field)
    requires Fields(f.msg) == [v, w]
    ensures |Encode(f)| == 3 + FieldSize(v) + FieldSize(w)
    ensures FieldAt(Encode(f), 3, v) && FieldAt(Encode(f), 3 + FieldSize(v), w)
  {
    hide Encode, FieldAt, Fields, FieldSize;
    Header(f);
    FieldOnWire(f, 0);
    FieldOnWire(f, 1);
  }

  lemma Three(f: Fcall, v: Field, w: Field, x: Field)
    requires Fields(f.msg) == [v, w, x]
    ensures |Encode(f)| == 3 + FieldSize(v) + FieldSize(w) + FieldSize(x)
    ensures FieldAt(Encode(f), 3, v) && FieldAt(Encode(f), 3 + FieldSize(v), w)
    ensures FieldAt(Encode(f), 3 + FieldSize(v) + FieldSize(w), x)
  {
    hide Encode, FieldAt, Fields, FieldSize;
    Header(f);
    FieldOnWire(f, 0);
    FieldOnWire(f, 1);
    FieldOnWire(f, 2);
    assert RowSize(Fields(f.msg), 2) == FieldSize(v) + FieldSize(w);
  }

  lemma Four(f: Fcall, v: Field, w: Field, x: Field, y: Field)
    requires Fields(f.msg) == [v, w, x, y]
    ensures |Encode(f)| == 3 + FieldSize(v) + FieldSize(w) + FieldSize(x) + FieldSize(y)
    ensures FieldAt(Encode(f), 3, v) && FieldAt(Encode(f), 3 + FieldSize(v), w)
    ensures FieldAt(Encode(f), 3 + FieldSize(v) + FieldSize(w), x)
    ensures FieldAt(Encode(f), 3 + FieldSize(v) + FieldSize(w) + FieldSize(x), y)
  {
    hide Encode, FieldAt, Fields, FieldSize;
    Header(f);
    FieldOnWire(f, 0);
    FieldOnWire(f, 1);
    FieldOnWire(f, 2);
    FieldOnWire(f, 3);
    assert RowSize(Fields(f.msg), 2) == FieldSize(v) + FieldSize(w);
    assert RowSize(Fields(f.msg), 3) == FieldSize(v) + FieldSize(w) + FieldSize(x);
  }

  lemma SessionWire(f: Fcall)
    requires f.typ == Type(f.msg)
    requires f.msg.Tversion? || f.msg.Rversion? || f.msg.Tauth? || f.msg.Rauth? || f.msg.Tattach? || f.msg.Rattach? ||
             f.msg.Rerror? || f.msg.Tflush?
    ensures Wire(Encode(f), f.tag, f.msg)
  {
    hide Encode, EncDir, RowSize, StrsSize;
    hide StrAt, Num1At, Num4At, Num8At, QidAt, DataAt, StrsAt, QidsAt, DirAt;
    Header(f);
    match f.msg {
      case Tversion(n, v) => Two(f, U32(n), Str(v));
      case Rversion(n, v) => Two(f, U32(n), Str(v));
      case Tauth(g, u, a) => Three(f, U32(g), Str(u), Str(a));
      case Rauth(q) => One(f, QidF(q));
      case Tattach(g, h, u, a) => Four(f, U32(g), U32(h), Str(u), Str(a));
      case Rattach(q) => One(f, QidF(q));
      case Rerror(e) => One(f, Str(e));
      case Tflush(t) => One(f, U16(t));
    }
  }

  lemma NamesWire(f: Fcall)
    requires f.typ == Type(f.msg)
    requires f.msg.Twalk? || f.msg.Rwalk? || f.msg.Topen? || f.msg.Ropen? || f.msg.Tcreate? || f.msg.Rcreate?
    ensures Wire(Encode(f), f.tag, f.msg)
  {
    hide Encode, EncDir, RowSize, StrsSize;
    hide StrAt, Num1At, Num4At, Num8At, QidAt, DataAt, StrsAt, QidsAt, DirAt;
    Header(f);
    match f.msg {
      case Twalk(g, h, ns) => Three(f, U32(g), U32(h), Strs(ns));
      case Rwalk(qs) => One(f, Qids(qs));
      case Topen(g, o) => Two(f, U32(g), U8(o));
      case Ropen(q, u) => Two(f, QidF(q), U32(u));
      case Tcreate(g, n, p, o) => Four(f, U32(g), Str(n), U32(p), U8(o));
      case Rcreate(q, u) => Two(f, QidF(q), U32(u));
    }
  }

  lemma DataWire(f: Fcall)
    requires f.typ == Type(f.msg)
    requires f.msg.Tread? || f.msg.Rread? || f.msg.Twrite? || f.msg.Rwrite? || f.msg.Tclunk? || f.msg.Tremove? ||
             f.msg.Tstat?
    ensures Wire(Encode(f), f.tag, f.msg)
  {
    hide Encode, EncDir, RowSize, StrsSize;
    hide StrAt, Num1At, Num4At, Num8At, QidAt, DataAt, StrsAt, QidsAt, DirAt;
    Header(f);
    match f.msg {
      case Tread(g, o, c) => Three(f, U32(g), U64(o), U32(c));
      case Rread(d) => One(f, Data(d));
      case Twrite(g, o, d) => Three(f, U32(g), U64(o), Data(d));
      case Rwrite(c) => One(f, U32(c));
      case Tclunk(g) => One(f, U32(g));
      case Tremove(g) => One(f, U32(g));
      case Tstat(g) => One(f, U32(g));
    }
  }

  lemma StatWire(f: Fcall)
    requires f.typ == Type(f.msg)
    requires f.msg.Rstat? || f.msg.Twstat?
    ensures Wire(Encode(f), f.tag, f.msg)
  {
    hide Encode, EncDir, RowSize, StrsSize;
    hide StrAt, Num1At, Num4At, Num8At, QidAt, DataAt, StrsAt, QidsAt, DirAt;
    Header(f);
    match f.msg {
      case Rstat(d) =>
        DirWritten(d, [], []);
        Two(f, U16(DirSize(d) % 0x1_0000), DirF(d));
      case Twstat(g, d) =>
        DirWritten(d, [], []);
        Three(f, U32(g), U16(DirSize(d) % 0x1_0000), DirF(d));
    }
  }

  lemma BareWire(f: Fcall)
    requires f.typ == Type(f.msg) && (f.msg.Rflush? || f.msg.Rclunk? || f.msg.Rremove? || f.msg.Rwstat?)
    ensures Wire(Encode(f), f.tag, f.msg)
  {
    hide Encode;
    Header(f);
  }

  /** Every encoded message lies on the wire as the manual lays it out: its type, its tag and each of its
      fields by offset, and nothing after them. */
  lemma OnWire(f: Fcall)
    requires f.typ == Type(f.msg)
    ensures Wire(Encode(f), f.tag, f.msg)
  {
    hide Wire, Encode, Fields;
    var m := f.msg;
    if m.Rstat? || m.Twstat? {
      StatWire(f);
    } else if m.Rflush? || m.Rclunk? || m.Rremove? || m.Rwstat? {
      BareWire(f);
    } else if m.Twalk? || m.Rwalk? || m.Topen? || m.Ropen? || m.Tcreate? || m.Rcreate? {
      NamesWire(f);
    } else if m.Tread? || m.Rread? || m.Twrite? || m.Rwrite? || m.Tclunk? || m.Tremove? || m.Tstat? {
      DataWire(f);
    } else {
      SessionWire(f);
    }
  }
}
