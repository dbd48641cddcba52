/** Which bytes the decoder accepts: exactly the encodings, apart from the slack that stat records have.
    What readmsg makes of a stream that is cut short or carries a bad length. */
module Accepted {
  import opened Common
  import opened Codec
  import opened Messages
  import opened Channels
  import Encoding
  import Layout

  // ---------------------------------------------------------------- values read are values written

  lemma {:induction false} UnLEBack(b: bytes)
    ensures LE(UnLE(b), |b|) == b
  {
    if b != [] {
      UnLEBack(b[1..]);
      assert b == [b[0]] + b[1..];
    }
  }

  lemma NumFrom(b: bytes, w: nat)
    ensures DecNum(b, w).Ok? <==> w <= |b|
    ensures DecNum(b, w).Ok? ==> b == LE(DecNum(b, w).value, w) + DecNum(b, w).rest
  {
    if w <= |b| {
      UnLEBack(b[..w]);
      assert b == b[..w] + b[w..];
    }
  }

  lemma StrFrom(b: bytes)
    ensures var r := DecStr(b); r.Ok? ==> WfStr(r.value) && b == EncStr(r.value) + r.rest
  {
    hide LE, DecNum;
    NumFrom(b, 2);
    var r := DecStr(b);
    if r.Ok? {
      var b1 := DecNum(b, 2).rest;
      assert b1 == r.value + r.rest;
      assert |r.value| == DecNum(b, 2).value < Pow256(2) == 0x1_0000;
    }
  }

  lemma {:induction false} StrsFrom(b: bytes, n: nat)
    ensures var r := DecStrs(b, n);
            r.Ok? ==> |r.value| == n && (forall x <- r.value :: WfStr(x)) && b == EncStrs(r.value) + r.rest
    decreases n
  {
    hide DecStr, EncStr;
    var r := DecStrs(b, n);
    if n > 0 && r.Ok? {
      StrFrom(b);
      var b1 := DecStr(b).rest;
      StrsFrom(b1, n - 1);
      assert r.value[1..] == DecStrs(b1, n - 1).value;
    }
  }

  lemma QidFrom(b: bytes)
    ensures var r := DecQid(b); r.Ok? ==> b == EncQid(r.value) + r.rest
  {
    hide LE, DecNum;
    var r := DecQid(b);
    if r.Ok? {
      NumFrom(b, 1);
      var b1 := DecNum(b, 1).rest;
      NumFrom(b1, 4);
      NumFrom(DecNum(b1, 4).rest, 8);
    }
  }

  lemma {:induction false} QidsFrom(b: bytes, n: nat)
    ensures var r := DecQids(b, n); r.Ok? ==> |r.value| == n && b == EncQids(r.value) + r.rest
    decreases n
  {
    hide DecQid, EncQid;
    var r := DecQids(b, n);
    if n > 0 && r.Ok? {
      QidFrom(b);
      var b1 := DecQid(b).rest;
      QidsFrom(b1, n - 1);
      assert r.value[1..] == DecQids(b1, n - 1).value;
    }
  }

  lemma DataFrom(b: bytes)
    ensures var r := Dec(SData, b); r.Ok? ==> r.value.Data? && Wf(r.value) && b == Enc(r.value) + r.rest
  {
    hide LE, DecNum;
    var r := Dec(SData, b);
    if r.Ok? {
      NumFrom(b, 4);
      var b1 := DecNum(b, 4).rest;
      assert b1 == r.value.data + r.rest;
      assert |r.value.data| == DecNum(b, 4).value < Pow256(4) == 0x1_0000_0000;
    }
  }

  lemma ListsFrom(b: bytes)
    ensures var r := Dec(SStrs, b); r.Ok? ==> r.value.Strs? && Wf(r.value) && b == Enc(r.value) + r.rest
    ensures var r := Dec(SQids, b); r.Ok? ==> r.value.Qids? && Wf(r.value) && b == Enc(r.value) + r.rest
  {
    hide LE, DecNum, DecStrs, EncStrs, DecQids, EncQids;
    NumFrom(b, 2);
    if DecNum(b, 2).Ok? {
      var n, b1 := DecNum(b, 2).value, DecNum(b, 2).rest;
      assert n < Pow256(2) == 0x1_0000;
      StrsFrom(b1, n);
      QidsFrom(b1, n);
    }
  }

  lemma FieldFrom(s: Shape, b: bytes)
    requires s != SDir
    ensures var r := Dec(s, b);
            r.Ok? ==> ShapeOf(r.value) == s && Wf(r.value) && b == Enc(r.value) + r.rest
  {
    hide LE, DecNum, EncStr, DecStr, EncQid, DecQid, EncStrs, DecStrs, EncQids, DecQids;
    match s {
      case SU8 => NumFrom(b, 1);
      case SU16 => NumFrom(b, 2);
      case SU32 => NumFrom(b, 4);
      case SU64 => NumFrom(b, 8);
      case SData => DataFrom(b);
      case SStr => StrFrom(b);
      case SStrs => ListsFrom(b);
      case SQid => QidFrom(b);
      case SQids => ListsFrom(b);
    }
  }

  lemma {:induction false} FieldsFrom(ss: seq<Shape>, b: bytes)
    requires SDir !in ss
    ensures var r := DecAll(ss, b);
            r.Ok? ==> ShapesOf(r.value) == ss && (forall v <- r.value :: Wf(v)) && b == EncAll(r.value) + r.rest
    decreases |ss|
  {
    hide Dec, Enc, Wf, ShapeOf;
    var r := DecAll(ss, b);
    if ss != [] && r.Ok? {
      FieldFrom(ss[0], b);
      var b1 := Dec(ss[0], b).rest;
      FieldsFrom(ss[1..], b1);
      var q := DecAll(ss[1..], b1);
      assert r.value == [Dec(ss[0], b).value] + q.value && r.value[1..] == q.value;
      assert ShapesOf(r.value) == [ShapeOf(r.value[0])] + ShapesOf(q.value);
    }
  }

  // ---------------------------------------------------------------- a Dir and its slack

  lemma DirBodyFrom(b: bytes)
    ensures var r := DecDirBody(b);
            r.Ok? ==>
              && WfStr(r.value.name) && WfStr(r.value.uid) && WfStr(r.value.gid) && WfStr(r.value.muid)
              && b == EncDirBody(r.value) + r.rest
  {
    hide LE, DecNum, EncQid, DecQid, EncStr, DecStr;
    var r := DecDirBody(b);
    if r.Ok? {
      var d := r.value;
      NumFrom(b, 2);
      var b1 := DecNum(b, 2).rest;
      NumFrom(b1, 4);
      var b2 := DecNum(b1, 4).rest;
      QidFrom(b2);
      var b3 := DecQid(b2).rest;
      NumFrom(b3, 4);
      var b4 := DecNum(b3, 4).rest;
      NumFrom(b4, 4);
      var b5 := DecNum(b4, 4).rest;
      NumFrom(b5, 4);
      var b6 := DecNum(b5, 4).rest;
      NumFrom(b6, 8);
      var b7 := DecNum(b6, 8).rest;
      StrFrom(b7);
      var b8 := DecStr(b7).rest;
      StrFrom(b8);
      var b9 := DecStr(b8).rest;
      StrFrom(b9);
      var b10 := DecStr(b9).rest;
      StrFrom(b10);
      var x9 := EncStr(d.gid) + EncStr(d.muid);
      Assoc(EncStr(d.gid), EncStr(d.muid), r.rest);
      var x8 := EncStr(d.uid) + x9;
      Assoc(EncStr(d.uid), x9, r.rest);
      var x7 := EncStr(d.name) + x8;
      Assoc(EncStr(d.name), x8, r.rest);
      var x6 := LE(d.length, 8) + x7;
      Assoc(LE(d.length, 8), x7, r.rest);
      var x5 := LE(d.mtime, 4) + x6;
      Assoc(LE(d.mtime, 4), x6, r.rest);
      var x4 := LE(d.atime, 4) + x5;
      Assoc(LE(d.atime, 4), x5, r.rest);
      var x3 := LE(d.mode, 4) + x4;
      Assoc(LE(d.mode, 4), x4, r.rest);
      var x2 := EncQid(d.qid) + x3;
      Assoc(EncQid(d.qid), x3, r.rest);
      Assoc(LE(d.dev, 4), x2, r.rest);
      Assoc(LE(d.typ, 2), LE(d.dev, 4) + x2, r.rest);
    }
  }

  lemma Assoc(x: bytes, y: bytes, s: bytes)
    ensures x + (y + s) == (x + y) + s
  {
  }

  predicate WfNames(d: Dir) {
    WfStr(d.name) && WfStr(d.uid) && WfStr(d.gid) && WfStr(d.muid)
  }

  /** A Dir with bytes after its last field that its length counts. */
  function SlackDir(d: Dir, slack: bytes): bytes
    requires |EncDirBody(d) + slack| < 0x1_0000
  {
    LE(|EncDirBody(d) + slack|, 2) + (EncDirBody(d) + slack)
  }

  ghost predicate DirWithSlack(b: bytes, d: Dir, rest: bytes) {
    && WfNames(d)
    && exists slack :: |EncDirBody(d) + slack| < 0x1_0000 && b == SlackDir(d, slack) + rest
  }

  /** What is accepted for a Dir: its fields, then anything its length covers. */
  lemma DirIff(b: bytes, d: Dir, rest: bytes)
    ensures DecDir(b) == Ok(d, rest) <==> DirWithSlack(b, d, rest)
  {
    hide LE, DecNum, DecDirBody, EncDirBody;
    if DecDir(b) == Ok(d, rest) {
      NumFrom(b, 2);
      var n, b1 := DecNum(b, 2).value, DecNum(b, 2).rest;
      assert n < Pow256(2) == 0x1_0000;
      DirBodyFrom(b1[..n]);
      var slack := DecDirBody(b1[..n]).rest;
      assert b1[..n] == EncDirBody(d) + slack;
      assert b == SlackDir(d, slack) + rest;
    }
    if DirWithSlack(b, d, rest) {
      var slack :| |EncDirBody(d) + slack| < 0x1_0000 && b == SlackDir(d, slack) + rest;
      var body := EncDirBody(d) + slack;
      assert b == LE(|body|, 2) + (body + rest);
      NumBack(|body|, 2, body + rest);
      TakeBack(body, rest);
      DirBodyBack(d);
      DirBodyMore(EncDirBody(d), slack);
    }
  }

  // ---------------------------------------------------------------- more bytes after an accepted value change nothing

  lemma NumMore(b: bytes, w: nat, s: bytes)
    ensures var r := DecNum(b, w); r.Ok? ==> DecNum(b + s, w) == Ok(r.value, r.rest + s)
  {
    hide UnLE;
    if w <= |b| {
      assert (b + s)[..w] == b[..w] && (b + s)[w..] == b[w..] + s;
    }
  }

  lemma TakeMore(b: bytes, n: nat, s: bytes)
    ensures var r := Take(b, n); r.Ok? ==> Take(b + s, n) == Ok(r.value, r.rest + s)
  {
    if n <= |b| {
      assert (b + s)[..n] == b[..n] && (b + s)[n..] == b[n..] + s;
    }
  }

  lemma StrMore(b: bytes, s: bytes)
    ensures var r := DecStr(b); r.Ok? ==> DecStr(b + s) == Ok(r.value, r.rest + s)
  {
    hide DecNum, Take;
    NumMore(b, 2, s);
    if DecNum(b, 2).Ok? {
      TakeMore(DecNum(b, 2).rest, DecNum(b, 2).value, s);
    }
  }

  lemma {:induction false} StrsMore(b: bytes, n: nat, s: bytes)
    ensures var r := DecStrs(b, n); r.Ok? ==> DecStrs(b + s, n) == Ok(r.value, r.rest + s)
    decreases n
  {
    hide DecStr;
    if n > 0 {
      StrMore(b, s);
      if DecStr(b).Ok? {
        StrsMore(DecStr(b).rest, n - 1, s);
      }
    }
  }

  lemma QidMore(b: bytes, s: bytes)
    ensures var r := DecQid(b); r.Ok? ==> DecQid(b + s) == Ok(r.value, r.rest + s)
  {
    hide DecNum;
    if DecQid(b).Ok? {
      NumMore(b, 1, s);
      var b1 := DecNum(b, 1).rest;
      NumMore(b1, 4, s);
      NumMore(DecNum(b1, 4).rest, 8, s);
    }
  }

  lemma {:induction false} QidsMore(b: bytes, n: nat, s: bytes)
    ensures var r := DecQids(b, n); r.Ok? ==> DecQids(b + s, n) == Ok(r.value, r.rest + s)
    decreases n
  {
    hide DecQid;
    if n > 0 {
      QidMore(b, s);
      if DecQid(b).Ok? {
        QidsMore(DecQid(b).rest, n - 1, s);
      }
    }
  }

  lemma DirBodyMore(b: bytes, s: bytes)
    ensures var r := DecDirBody(b); r.Ok? ==> DecDirBody(b + s) == Ok(r.value, r.rest + s)
  {
    hide DecNum, DecQid, DecStr;
    if DecDirBody(b).Ok? {
      NumMore(b, 2, s);
      var b1 := DecNum(b, 2).rest;
      NumMore(b1, 4, s);
      var b2 := DecNum(b1, 4).rest;
      QidMore(b2, s);
      var b3 := DecQid(b2).rest;
      NumMore(b3, 4, s);
      var b4 := DecNum(b3, 4).rest;
      NumMore(b4, 4, s);
      var b5 := DecNum(b4, 4).rest;
      NumMore(b5, 4, s);
      var b6 := DecNum(b5, 4).rest;
      NumMore(b6, 8, s);
      var b7 := DecNum(b6, 8).rest;
      StrMore(b7, s);
      var b8 := DecStr(b7).rest;
      StrMore(b8, s);
      var b9 := DecStr(b8).rest;
      StrMore(b9, s);
      StrMore(DecStr(b9).rest, s);
    }
  }

  lemma DirMore(b: bytes, s: bytes)
    ensures var r := DecDir(b); r.Ok? ==> DecDir(b + s) == Ok(r.value, r.rest + s)
  {
    hide DecNum, Take, DecDirBody;
    NumMore(b, 2, s);
    if DecNum(b, 2).Ok? {
      TakeMore(DecNum(b, 2).rest, DecNum(b, 2).value, s);
    }
  }

  lemma FieldMore(p: Shape, b: bytes, s: bytes)
    ensures var r := Dec(p, b); r.Ok? ==> Dec(p, b + s) == Ok(r.value, r.rest + s)
  {
    hide DecNum, DecStr, DecStrs, DecQid, DecQids, DecDir, Take;
    match p {
      case SU8 => NumMore(b, 1, s);
      case SU16 => NumMore(b, 2, s);
      case SU32 => NumMore(b, 4, s);
      case SU64 => NumMore(b, 8, s);
      case SData =>
        NumMore(b, 4, s);
        if DecNum(b, 4).Ok? {
          TakeMore(DecNum(b, 4).rest, DecNum(b, 4).value, s);
        }
      case SStr => StrMore(b, s);
      case SStrs =>
        NumMore(b, 2, s);
        if DecNum(b, 2).Ok? {
          StrsMore(DecNum(b, 2).rest, DecNum(b, 2).value, s);
        }
      case SQid => QidMore(b, s);
      case SQids =>
        NumMore(b, 2, s);
        if DecNum(b, 2).Ok? {
          QidsMore(DecNum(b, 2).rest, DecNum(b, 2).value, s);
        }
      case SDir => DirMore(b, s);
    }
  }

  lemma {:induction false} FieldsMore(ps: seq<Shape>, b: bytes, s: bytes)
    ensures var r := DecAll(ps, b); r.Ok? ==> DecAll(ps, b + s) == Ok(r.value, r.rest + s)
    decreases |ps|
  {
    hide Dec;
    if ps != [] {
      FieldMore(ps[0], b, s);
      if Dec(ps[0], b).Ok? {
        FieldsMore(ps[1..], Dec(ps[0], b).rest, s);
      }
    }
  }

  lemma DecodeMore(b: bytes, s: bytes)
    ensures var r := Decode(b); r.Ok? ==> Decode(b + s) == Ok(r.value, r.rest + s)
  {
    hide DecNum, DecAll, Shapes, Build;
    if Decode(b).Ok? {
      NumMore(b, 1, s);
      var b1 := DecNum(b, 1).rest;
      NumMore(b1, 2, s);
      FieldsMore(Shapes(DecNum(b, 1).value).value, DecNum(b1, 2).rest, s);
    }
  }

  // ---------------------------------------------------------------- messages

  /** An encoding cut anywhere before its end is refused. */
  lemma CutShort(f: Fcall, k: nat)
    requires WfFcall(f) && k < |Encode(f)|
    ensures Decode(Encode(f)[..k]).Err?
  {
    hide Decode, Encode, WfFcall;
    var b, s := Encode(f)[..k], Encode(f)[k..];
    assert b + s == Encode(f) == Encode(f) + [];
    RoundTrip(f, []);
    DecodeMore(b, s);
  }

  predicate Builds(typ: u8, vs: seq<Field>) {
    var m := Build(typ, vs);
    m.Some? && Type(m.value) == typ && (typ != 125 && typ != 126 ==> Fields(m.value) == vs)
  }

  lemma Build1(typ: u8, v: Field)
    requires Shapes(typ) == Some([ShapeOf(v)])
    ensures Builds(typ, [v])
  {
    hide EncDir;
    assert |Shapes(typ).value| == 1;
  }

  lemma Build2(typ: u8, v: Field, w: Field)
    requires Shapes(typ) == Some([ShapeOf(v), ShapeOf(w)])
    ensures Builds(typ, [v, w])
  {
    hide EncDir;
    assert |Shapes(typ).value| == 2;
  }

  lemma Build3(typ: u8, v: Field, w: Field, x: Field)
    requires Shapes(typ) == Some([ShapeOf(v), ShapeOf(w), ShapeOf(x)])
    ensures Builds(typ, [v, w, x])
  {
    hide EncDir;
    assert |Shapes(typ).value| == 3;
  }

  lemma Build4(typ: u8, v: Field, w: Field, x: Field, y: Field)
    requires Shapes(typ) == Some([ShapeOf(v), ShapeOf(w), ShapeOf(x), ShapeOf(y)])
    ensures Builds(typ, [v, w, x, y])
  {
    hide EncDir;
    assert |Shapes(typ).value| == 4;
  }

  /** Fields of the shapes of a type make a message of that type; only the second length of a stat message
      is not kept. */
  lemma BuildFrom(typ: u8, vs: seq<Field>)
    requires Shapes(typ) == Some(ShapesOf(vs))
    ensures Builds(typ, vs)
  {
    var ss := ShapesOf(vs);
    assert |vs| == |ss| <= 4;
    assert forall i :: 0 <= i < |vs| ==> ShapeOf(vs[i]) == ss[i];
    if |vs| == 0 {
      assert Builds(typ, []) && vs == [];
    } else if |vs| == 1 {
      assert vs == [vs[0]] && ss == [ss[0]];
      Build1(typ, vs[0]);
    } else if |vs| == 2 {
      assert vs == [vs[0], vs[1]] && ss == [ss[0], ss[1]];
      Build2(typ, vs[0], vs[1]);
    } else if |vs| == 3 {
      assert vs == [vs[0], vs[1], vs[2]] && ss == [ss[0], ss[1], ss[2]];
      Build3(typ, vs[0], vs[1], vs[2]);
    } else {
      assert vs == [vs[0], vs[1], vs[2], vs[3]] && ss == [ss[0], ss[1], ss[2], ss[3]];
      Build4(typ, vs[0], vs[1], vs[2], vs[3]);
    }
  }

  /** Apart from stat messages the decoder accepts the encodings of well-formed messages and nothing
      else, whatever follows. */
  lemma DecodeIff(b: bytes, f: Fcall, rest: bytes)
    requires !f.msg.Rstat? && !f.msg.Twstat?
    ensures Decode(b) == Ok(f, rest) <==> WfFcall(f) && b == Encode(f) + rest
  {
    hide LE, DecNum, EncAll, DecAll, Shapes, Build, Fields, Wf, ShapesOf;
    if Decode(b) == Ok(f, rest) {
      NumFrom(b, 1);
      var b1 := DecNum(b, 1).rest;
      NumFrom(b1, 2);
      var b2 := DecNum(b1, 2).rest;
      NotStat(f.typ, DecAll(Shapes(f.typ).value, b2).value, f.msg);
      FieldsFrom(Shapes(f.typ).value, b2);
      BuildFrom(f.typ, DecAll(Shapes(f.typ).value, b2).value);
      assert b == LE(f.typ, 1) + (LE(f.tag, 2) + (EncAll(Fields(f.msg)) + rest));
    }
    if WfFcall(f) && b == Encode(f) + rest {
      RoundTrip(f, rest);
    }
  }

  lemma NotStat(typ: u8, vs: seq<Field>, m: Message)
    requires Build(typ, vs) == Some(m) && !m.Rstat? && !m.Twstat? && Shapes(typ).Some?
    ensures typ != 125 && typ != 126 && SDir !in Shapes(typ).value
  {
  }

  // ---------------------------------------------------------------- stat messages

  /** What precedes the Dir of a stat message, with any value for the second length. */
  function StatHead(m: Message, n: u16): seq<Field>
    requires m.Rstat? || m.Twstat?
  {
    if m.Rstat? then [U16(n)] else [U32(m.fid), U16(n)]
  }

  ghost predicate StatBytes(b: bytes, f: Fcall, rest: bytes)
    requires f.msg.Rstat? || f.msg.Twstat?
  {
    && f.typ == Type(f.msg)
    && exists n: u16, tail: bytes ::
         && b == LE(f.typ, 1) + (LE(f.tag, 2) + (EncAll(StatHead(f.msg, n)) + tail))
         && DirWithSlack(tail, f.msg.stat, rest)
  }

  lemma DirLast(ss: seq<Shape>, b: bytes)
    ensures var r := DecAll(ss + [SDir], b);
            match DecAll(ss, b)
            case Err(_, _) => r.Err?
            case Ok(vs, b1) =>
              match DecDir(b1)
              case Err(_, _) => r.Err?
              case Ok(d, rest) => r == Ok(vs + [DirF(d)], rest)
  {
    hide Dec, DecDir;
    Encoding.DecAllConcat(ss, [SDir], b);
    var t := DecAll(ss, b);
    if t.Ok? {
      OneDir(t.rest);
    }
  }

  lemma OneDir(b: bytes)
    ensures match DecDir(b)
            case Err(_, _) => DecAll([SDir], b).Err?
            case Ok(d, rest) => DecAll([SDir], b) == Ok([DirF(d)], rest)
  {
    hide DecDir;
    assert [SDir][1..] == [];
    if DecDir(b).Ok? {
      assert [DirF(DecDir(b).value)] + [] == [DirF(DecDir(b).value)];
    }
  }

  function StatShapes(m: Message): seq<Shape> {
    if m.Rstat? then [SU16] else [SU32, SU16]
  }

  lemma StatTypes()
    ensures Shapes(125) == Some([SU16] + [SDir]) && Shapes(126) == Some([SU32, SU16] + [SDir])
  {
    assert [SU16] + [SDir] == [SU16, SDir];
    assert [SU32, SU16] + [SDir] == [SU32, SU16, SDir];
  }

  lemma StatType(typ: u8, vs: seq<Field>, m: Message)
    requires Build(typ, vs) == Some(m) && (m.Rstat? || m.Twstat?)
    ensures typ == Type(m) && Shapes(typ) == Some(StatShapes(m) + [SDir])
  {
    StatTypes();
  }

  lemma HeadFrom(vs: seq<Field>, d: Dir, f: Fcall) returns (n: u16)
    requires f.msg.Rstat? || f.msg.Twstat?
    requires f.typ == Type(f.msg) && Build(f.typ, vs + [DirF(d)]) == Some(f.msg)
    requires ShapesOf(vs) == StatShapes(f.msg)
    ensures StatHead(f.msg, n) == vs && f.msg.stat == d
  {
    var ss := ShapesOf(vs);
    assert |vs| == |ss|;
    assert forall i :: 0 <= i < |vs| ==> ShapeOf(vs[i]) == ss[i];
    n := vs[|vs| - 1].n16;
    assert vs == if |vs| == 1 then [vs[0]] else [vs[0], vs[1]];
  }

  lemma StatFrom(b: bytes, f: Fcall, rest: bytes)
    requires f.msg.Rstat? || f.msg.Twstat?
    requires Decode(b) == Ok(f, rest)
    ensures StatBytes(b, f, rest)
  {
    hide DirWithSlack, EncAll, DecAll, LE, DecNum, ShapesOf, DecDir, StatHead, StatShapes, Build, Shapes;
    NumFrom(b, 1);
    var b1 := DecNum(b, 1).rest;
    NumFrom(b1, 2);
    var b2 := DecNum(b1, 2).rest;
    StatType(f.typ, DecAll(Shapes(f.typ).value, b2).value, f.msg);
    var ss := StatShapes(f.msg);
    DirLast(ss, b2);
    var t := DecAll(ss, b2);
    assert SDir !in ss by {
      NoDir(f.msg);
    }
    FieldsFrom(ss, b2);
    var d := DecDir(t.rest).value;
    var n := HeadFrom(t.value, d, f);
    DirIff(t.rest, d, rest);
    assert b == LE(f.typ, 1) + (LE(f.tag, 2) + (EncAll(StatHead(f.msg, n)) + t.rest));
  }

  lemma NoDir(m: Message)
    ensures SDir !in StatShapes(m)
  {
  }

  lemma HeadBack(f: Fcall, n: u16)
    requires f.msg.Rstat? || f.msg.Twstat?
    requires f.typ == Type(f.msg)
    ensures var vs := StatHead(f.msg, n);
            && ShapesOf(vs) == StatShapes(f.msg) && (forall v <- vs :: Wf(v))
            && Build(f.typ, vs + [DirF(f.msg.stat)]) == Some(f.msg)
            && Shapes(f.typ) == Some(StatShapes(f.msg) + [SDir])
  {
    StatTypes();
    assert ShapesOf(StatHead(f.msg, n)) == StatShapes(f.msg);
  }

  lemma StatBack(b: bytes, f: Fcall, rest: bytes)
    requires f.msg.Rstat? || f.msg.Twstat?
    requires StatBytes(b, f, rest)
    ensures Decode(b) == Ok(f, rest)
  {
    hide DirWithSlack, EncAll, DecAll, LE, DecNum, ShapesOf, DecDir, StatHead, StatShapes, Build, Shapes, Wf;
    var n: u16, tail: bytes :|
      && b == LE(f.typ, 1) + (LE(f.tag, 2) + (EncAll(StatHead(f.msg, n)) + tail))
      && DirWithSlack(tail, f.msg.stat, rest);
    var vs := StatHead(f.msg, n);
    HeadBack(f, n);
    NumBack(f.typ, 1, LE(f.tag, 2) + (EncAll(vs) + tail));
    NumBack(f.tag, 2, EncAll(vs) + tail);
    FieldsBack(vs, tail);
    DirIff(tail, f.msg.stat, rest);
    DirLast(StatShapes(f.msg), EncAll(vs) + tail);
  }

  /** The decoder takes a stat message with any second length, and with slack in the record. */
  lemma DecodeStatIff(b: bytes, f: Fcall, rest: bytes)
    requires f.msg.Rstat? || f.msg.Twstat?
    ensures Decode(b) == Ok(f, rest) <==> StatBytes(b, f, rest)
  {
    hide StatBytes, Decode;
    if Decode(b) == Ok(f, rest) {
      StatFrom(b, f, rest);
    }
    if StatBytes(b, f, rest) {
      StatBack(b, f, rest);
    }
  }

  // ---------------------------------------------------------------- errors

  lemma SimpleErrors(b: bytes, w: nat)
    ensures DecNum(b, w).Err? ==> DecNum(b, w).err != UnknownType
    ensures DecStr(b).Err? ==> DecStr(b).err != UnknownType
    ensures DecQid(b).Err? ==> DecQid(b).err != UnknownType
  {
    hide UnLE, Pow256;
  }

  lemma {:induction false} StrsErrors(b: bytes, n: nat)
    ensures DecStrs(b, n).Err? ==> DecStrs(b, n).err != UnknownType
    decreases n
  {
    hide DecStr;
    if n > 0 {
      SimpleErrors(b, 0);
      if DecStr(b).Ok? {
        StrsErrors(DecStr(b).rest, n - 1);
      }
    }
  }

  lemma {:induction false} QidsErrors(b: bytes, n: nat)
    ensures DecQids(b, n).Err? ==> DecQids(b, n).err != UnknownType
    decreases n
  {
    hide DecQid;
    if n > 0 {
      SimpleErrors(b, 0);
      if DecQid(b).Ok? {
        QidsErrors(DecQid(b).rest, n - 1);
      }
    }
  }

  lemma FieldErrors(s: Shape, b: bytes)
    ensures match Dec(s, b) case Ok(v, _) => ShapeOf(v) == s case Err(e, _) => e != UnknownType
  {
    hide DecStrs, DecQids, DecDirBody;
    if s.SDir? {
      DirErrors(b);
    }
    if DecNum(b, 2).Ok? {
      StrsErrors(DecNum(b, 2).rest, DecNum(b, 2).value);
      QidsErrors(DecNum(b, 2).rest, DecNum(b, 2).value);
    }
  }

  lemma DirErrors(b: bytes)
    ensures DecDir(b).Err? ==> DecDir(b).err != UnknownType
  {
    hide UnLE, Pow256;
  }

  lemma {:induction false} RowErrors(ss: seq<Shape>, b: bytes)
    ensures match DecAll(ss, b) case Ok(vs, _) => ShapesOf(vs) == ss case Err(e, _) => e != UnknownType
    decreases |ss|
  {
    hide Dec, ShapeOf;
    if ss != [] {
      FieldErrors(ss[0], b);
      var r := Dec(ss[0], b);
      if r.Ok? {
        RowErrors(ss[1..], r.rest);
        var q := DecAll(ss[1..], r.rest);
        if q.Ok? {
          assert ShapesOf([r.value] + q.value) == [ShapeOf(r.value)] + ShapesOf(q.value);
        }
      }
    }
  }

  /** Bytes are refused for their type exactly when type and tag are there and the type is no 9P2000 one
      (106 would be Terror, which does not exist). */
  lemma UnknownTypeIff(b: bytes)
    ensures var r := Decode(b);
            r.Err? && r.err == UnknownType <==> |b| >= 3 && !(100 <= b[0] <= 127 && b[0] != 106)
  {
    hide DecAll, Build, ShapesOf, DecNum;
    NumFrom(b, 1);
    SimpleErrors(b, 1);
    if |b| >= 1 {
      TypeByte(b);
      var typ, b1 := DecNum(b, 1).value, DecNum(b, 1).rest;
      NumFrom(b1, 2);
      SimpleErrors(b1, 2);
      if DecNum(b1, 2).Ok? && Shapes(typ).Some? {
        var ss, b2 := Shapes(typ).value, DecNum(b1, 2).rest;
        RowErrors(ss, b2);
        if DecAll(ss, b2).Ok? {
          BuildFrom(typ, DecAll(ss, b2).value);
        }
      }
    }
  }

  lemma TypeByte(b: bytes)
    requires |b| >= 1
    ensures DecNum(b, 1) == Ok(b[0], b[1..])
  {
    assert b[..1] == [b[0]];
  }

  // ---------------------------------------------------------------- readmsg on any stream

  /** What readmsg returns, from the four bytes at the head of the stream: a length below 4 is out of range,
      a stream that ends inside the message is an error, and otherwise the message fills the buffer
      as far as it goes and the stream is left at the next one. */
  lemma ReadMsgIff(b: bytes, p: bytes, n: u32)
    requires Layout.Num4At(b, 0, n)
    ensures match ReadMsg(b, p)
            case Crash => n < 4
            case Short(_) => |b| < n
            case Msg(size, buf, rest) =>
              && 4 <= n == size && n <= |b| && rest == b[n..] && |buf| == |p|
              && forall i :: 0 <= i < |p| ==> buf[i] == if i + 4 < n then b[4 + i] else p[i]
  {
    hide DecNum;
    HeadNumber(b, n);
  }

  lemma HeadNumber(b: bytes, n: u32)
    requires Layout.Num4At(b, 0, n)
    ensures DecNum(b, 4) == Ok(n, b[4..])
  {
    var m := UnLE(b[..4]);
    UnLEBack(b[..4]);
    UnLEBound(b[..4]);
    assert Pow256(4) == 0x1_0000_0000;
    Layout.Num4Written(m, [], []);
    hide LE, UnLE;
    assert [] + (LE(m, 4) + []) == b[..4];
  }

  lemma ReadMsgShortHeader(b: bytes, p: bytes)
    requires |b| < 4
    ensures ReadMsg(b, p) == Short(if |b| == 0 then EOF else UnexpectedEOF)
  {
  }
}
