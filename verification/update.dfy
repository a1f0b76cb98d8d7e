/** Update operations. Each operation names a field by its number and
    carries an opcode and an operand; on the wire it is the field number as
    a u32, the opcode as one byte, then the operand. */
module UpdateOps {
  import opened Common
  import opened Wire
  import opened FieldCodec

  /** A value of Swift's `Int32`; the conversions to it trap outside it. */
  type i32 = x: int | -0x8000_0000 <= x < 0x8000_0000

  /** What an update does to its field, with its operand. */
  datatype UpdateOp =
    | SetOp(value: Field)
    | AddOp(value: Field)
    | AndOp(value: Field)
    | XorOp(value: Field)
    | OrOp(value: Field)
    | SpliceOp(offset: i32, length: i32, value: Field)
    | DeleteOp
    | InsertOp(value: Field)

  function Opcode(op: UpdateOp): (code: byte)
    ensures code <= 7
  {
    match op
    case SetOp(_) => 0
    case AddOp(_) => 1
    case AndOp(_) => 2
    case XorOp(_) => 3
    case OrOp(_) => 4
    case SpliceOp(_, _, _) => 5
    case DeleteOp => 6
    case InsertOp(_) => 7
  }

  /** The opcode tells the operations apart: set 0, add 1, and 2, xor 3,
      or 4, splice 5, delete 6, insert 7. */
  lemma OpcodeInjective(a: UpdateOp, b: UpdateOp)
    requires Opcode(a) == Opcode(b)
    ensures a.SetOp? == b.SetOp? && a.AddOp? == b.AddOp? && a.AndOp? == b.AndOp? && a.XorOp? == b.XorOp?
    ensures a.OrOp? == b.OrOp? && a.SpliceOp? == b.SpliceOp? && a.DeleteOp? == b.DeleteOp? && a.InsertOp? == b.InsertOp?
  {
  }

  /** An operation on the field numbered `field`. */
  datatype UpdateOperation = UpdateOperation(field: u32, op: UpdateOp)

  /** A field of a tuple by its number, as the builders take it. */
  datatype FieldNumber = FieldNumber(number: u32)

  /** `set(v)`: opcode 0 on field `n`, with `v` as its operand. */
  function SetField(n: FieldNumber, v: Field): (r: UpdateOperation)
    ensures r.field == n.number && Opcode(r.op) == 0 && r.op.value == v
  {
    UpdateOperation(n.number, SetOp(v))
  }

  /** `delete()`: opcode 6 on field `n`, with no operand. */
  function DeleteField(n: FieldNumber): (r: UpdateOperation)
    ensures r.field == n.number && Opcode(r.op) == 6 && OperandBytes(r.op) == []
  {
    UpdateOperation(n.number, DeleteOp)
  }

  /** `insert(v)`: opcode 7 on field `n`, with `v` as its operand. */
  function InsertField(n: FieldNumber, v: Field): (r: UpdateOperation)
    ensures r.field == n.number && Opcode(r.op) == 7 && r.op.value == v
  {
    UpdateOperation(n.number, InsertOp(v))
  }

  /** `add(v)`, offered only for integer fields: opcode 1 on field `n`. */
  function Add(n: FieldNumber, v: Field): (r: UpdateOperation)
    requires v.Native?
    ensures r.field == n.number && Opcode(r.op) == 1 && r.op.value == v
  {
    UpdateOperation(n.number, AddOp(v))
  }

  /** `and(v)`, offered only for integer fields: opcode 2 on field `n`. */
  function And(n: FieldNumber, v: Field): (r: UpdateOperation)
    requires v.Native?
    ensures r.field == n.number && Opcode(r.op) == 2 && r.op.value == v
  {
    UpdateOperation(n.number, AndOp(v))
  }

  /** `xor(v)`, offered only for integer fields: opcode 3 on field `n`. */
  function Xor(n: FieldNumber, v: Field): (r: UpdateOperation)
    requires v.Native?
    ensures r.field == n.number && Opcode(r.op) == 3 && r.op.value == v
  {
    UpdateOperation(n.number, XorOp(v))
  }

  /** `or(v)`, offered only for integer fields: opcode 4 on field `n`. */
  function Or(n: FieldNumber, v: Field): (r: UpdateOperation)
    requires v.Native?
    ensures r.field == n.number && Opcode(r.op) == 4 && r.op.value == v
  {
    UpdateOperation(n.number, OrOp(v))
  }

  /** `sub(v)` on a signed integer field: an add of the negated value. The
      negation of the type's minimum traps, so the negated value must fit. */
  function Sub(n: FieldNumber, k: IntKind, v: int): (r: UpdateOperation)
    requires Signed(k) && InRange(k, v) && InRange(k, -v)
    ensures r.op.AddOp? && r.op.value.Native? && r.op.value.kind == k
    ensures r.op.value.value + v == 0 && r.field == n.number
  {
    Add(n, Native(k, -v))
  }

  /** The bitwise complement of `v` in the type `k`. */
  function BitNot(k: IntKind, v: int): (r: int)
    requires InRange(k, v)
    ensures InRange(k, r) && TwosComplement(k, r) == Modulus(k) - 1 - TwosComplement(k, v)
  {
    if Signed(k) then -v - 1 else Modulus(k) - 1 - v
  }

  lemma BitNotInvolutive(k: IntKind, v: int)
    requires InRange(k, v)
    ensures BitNot(k, BitNot(k, v)) == v
  {
  }

  /** `setBit(x)`: an or with the raw value of the option set `x`. */
  function SetBit(n: FieldNumber, k: IntKind, raw: int): (r: UpdateOperation)
    requires InRange(k, raw)
    ensures r.op.OrOp? && r.op.value == Native(k, raw) && r.field == n.number
  {
    Or(n, Native(k, raw))
  }

  /** `clearBit(x)`: an and with the complement of the raw value of `x`, so
      exactly the bits of `x` are cleared. */
  function ClearBit(n: FieldNumber, k: IntKind, raw: int): (r: UpdateOperation)
    requires InRange(k, raw)
    ensures r.op.AndOp? && r.op.value.Native? && r.op.value.kind == k && r.field == n.number
    ensures TwosComplement(k, r.op.value.value) + TwosComplement(k, raw) == Modulus(k) - 1
  {
    And(n, Native(k, BitNot(k, raw)))
  }

  function OperandBytes(op: UpdateOp): seq<byte>
  {
    match op
    case SpliceOp(offset, length, v) => NativeBytes(Int32, offset) + NativeBytes(Int32, length) + FieldBytes(v)
    case DeleteOp => []
    case _ => FieldBytes(op.value)
  }

  /** The bytes of an update op: the opcode as one byte, then the operand. */
  function UpdateOpBytes(op: UpdateOp): seq<byte>
  {
    [Opcode(op)] + OperandBytes(op)
  }

  /** The bytes of an operation: the u32 field number, then the op. */
  function OpBytes(o: UpdateOperation): seq<byte>
  {
    U32Bytes(o.field) + UpdateOpBytes(o.op)
  }

  /** The opcode takes exactly one byte, the opcode itself. */
  lemma OpcodeByte(code: byte)
    ensures NativeBytes(UInt8, code) == [code]
  {
    assert LittleEndian(code, 1) == [(code % 256) as byte] + LittleEndian(code / 256, 0);
  }

  /** `append(_: UpdateOperation)`: the field number, then the op. */
  method AppendOperation(buf: Buffer, o: UpdateOperation)
    modifies buf
    ensures buf.data == old(buf.data) + OpBytes(o)
  {
    ghost var d := buf.data;
    buf.AppendNative(UInt32, o.field);
    AppendOp(buf, o.op);
    Rebracket(d, U32Bytes(o.field), UpdateOpBytes(o.op));
  }

  /** `append(_: UpdateOp)`: the opcode, then the operand the opcode calls
      for; a delete has none. */
  method AppendOp(buf: Buffer, op: UpdateOp)
    modifies buf
    ensures buf.data == old(buf.data) + UpdateOpBytes(op)
  {
    ghost var d := buf.data;
    buf.AppendNative(UInt8, Opcode(op));
    OpcodeByte(Opcode(op));
    ghost var head := buf.data;
    match op {
      case SetOp(v) => AppendField(buf, v);
      case AddOp(v) => AppendField(buf, v);
      case AndOp(v) => AppendField(buf, v);
      case XorOp(v) => AppendField(buf, v);
      case OrOp(v) => AppendField(buf, v);
      case SpliceOp(offset, length, v) =>
        buf.AppendNative(Int32, offset);
        buf.AppendNative(Int32, length);
        AppendField(buf, v);
        Rebracket(head, NativeBytes(Int32, offset) + NativeBytes(Int32, length), FieldBytes(v));
        Rebracket(head, NativeBytes(Int32, offset), NativeBytes(Int32, length));
      case DeleteOp =>
        assert buf.data == head + [];
      case InsertOp(v) => AppendField(buf, v);
    }
    assert buf.data == head + OperandBytes(op);
    Rebracket(d, [Opcode(op)], OperandBytes(op));
  }

  /** The kind of an operation's field operand; an operation without one
      is read with any kind. */
  function OperandKind(op: UpdateOp): FieldKind
  {
    if op.DeleteOp? then BlobKind else KindOf(op.value)
  }

  /** The server's reading of the operand of opcode `code`, a field of
      kind `kind` where there is one. */
  function ParseOperand(code: int, kind: FieldKind, s: seq<byte>): (r: Option<(UpdateOp, seq<byte>)>)
  {
    if code == 6 then Some((DeleteOp, s))
    else if code == 5 then
      match DecodeNative(Int32, s)
      case Err(_) => None
      case Ok((offset, s1)) =>
        match DecodeNative(Int32, s1)
        case Err(_) => None
        case Ok((length, s2)) =>
          match DecodeField(kind, s2)
          case Err(_) => None
          case Ok((v, rest)) => Some((SpliceOp(offset, length, v), rest))
    else if 0 <= code <= 7 then
      match DecodeField(kind, s)
      case Err(_) => None
      case Ok((v, rest)) =>
        var op :=
          if code == 0 then SetOp(v) else if code == 1 then AddOp(v) else if code == 2 then AndOp(v)
          else if code == 3 then XorOp(v) else if code == 4 then OrOp(v) else InsertOp(v);
        Some((op, rest))
    else None
  }

  /** The server's reading of an op: the opcode byte, then its operand. */
  function ParseUpdateOp(kind: FieldKind, s: seq<byte>): (r: Option<(UpdateOp, seq<byte>)>)
  {
    if |s| > 0 then ParseOperand(s[0], kind, s[1..]) else None
  }

  /** The server's reading of an operation whose operand has kind `kind`:
      the field number, then the op. */
  function ParseOp(kind: FieldKind, s: seq<byte>): (r: Option<(UpdateOperation, seq<byte>)>)
  {
    match DecodeU32(s)
    case Err(_) => None
    case Ok((field, s1)) =>
      match ParseUpdateOp(kind, s1)
      case None => None
      case Some((op, rest)) => Some((UpdateOperation(field, op), rest))
  }

  /** Reading back a written operand gives the op and consumes exactly its
      bytes, whatever follows. */
  lemma {:induction false} ParseOperandOfOperandBytes(op: UpdateOp, rest: seq<byte>)
    ensures ParseOperand(Opcode(op), OperandKind(op), OperandBytes(op) + rest) == Some((op, rest))
  {
    if op.SpliceOp? {
      ParseSpliceOperand(op.offset, op.length, op.value, rest);
    } else if op.DeleteOp? {
      assert [] + rest == rest;
    } else {
      ParseFieldOperand(op, rest);
    }
  }

  /** A splice operand: the offset and the length, four bytes each, then the field. */
  lemma {:induction false} ParseSpliceOperand(offset: i32, length: i32, v: Field, rest: seq<byte>)
    ensures ParseOperand(5, KindOf(v), OperandBytes(SpliceOp(offset, length, v)) + rest)
            == Some((SpliceOp(offset, length, v), rest))
  {
    var a, b, c := NativeBytes(Int32, offset), NativeBytes(Int32, length), FieldBytes(v);
    Rebracket(a + b, c, rest);
    Rebracket(a, b, c + rest);
    DecodeNativeOfNativeBytes(Int32, offset, b + (c + rest));
    DecodeNativeOfNativeBytes(Int32, length, c + rest);
    DecodeFieldOfFieldBytes(v, rest);
  }

  /** An operand that is a single field reads back as the op its opcode names. */
  lemma {:induction false} ParseFieldOperand(op: UpdateOp, rest: seq<byte>)
    requires !op.SpliceOp? && !op.DeleteOp?
    ensures ParseOperand(Opcode(op), KindOf(op.value), FieldBytes(op.value) + rest) == Some((op, rest))
  {
    DecodeFieldOfFieldBytes(op.value, rest);
  }

  /** Reading back a written op gives the op and consumes exactly its bytes. */
  lemma {:induction false} ParseUpdateOpOfUpdateOpBytes(op: UpdateOp, rest: seq<byte>)
    ensures ParseUpdateOp(OperandKind(op), UpdateOpBytes(op) + rest) == Some((op, rest))
  {
    var tail := OperandBytes(op) + rest;
    Rebracket([Opcode(op)], OperandBytes(op), rest);
    assert ([Opcode(op)] + tail)[1..] == tail;
    ParseOperandOfOperandBytes(op, rest);
  }

  /** Reading back a written operation, with its operand's kind, gives the
      operation and consumes exactly its bytes. */
  lemma {:induction false} ParseOpOfOpBytes(o: UpdateOperation, rest: seq<byte>)
    ensures ParseOp(OperandKind(o.op), OpBytes(o) + rest) == Some((o, rest))
  {
    Rebracket(U32Bytes(o.field), UpdateOpBytes(o.op), rest);
    DecodeU32OfU32Bytes(o.field, UpdateOpBytes(o.op) + rest);
    ParseUpdateOpOfUpdateOpBytes(o.op, rest);
  }

  /** What a builder makes, the server reads back from its bytes: the field
      number, the opcode and the operand, and nothing more. */
  lemma {:induction false} BuildersReadBack(n: FieldNumber, v: Field, rest: seq<byte>)
    ensures ParseOp(KindOf(v), OpBytes(SetField(n, v)) + rest) == Some((UpdateOperation(n.number, SetOp(v)), rest))
    ensures ParseOp(BlobKind, OpBytes(DeleteField(n)) + rest) == Some((UpdateOperation(n.number, DeleteOp), rest))
    ensures ParseOp(KindOf(v), OpBytes(InsertField(n, v)) + rest) == Some((UpdateOperation(n.number, InsertOp(v)), rest))
    ensures v.Native? ==> ParseOp(KindOf(v), OpBytes(Add(n, v)) + rest) == Some((UpdateOperation(n.number, AddOp(v)), rest))
    ensures v.Native? ==> ParseOp(KindOf(v), OpBytes(And(n, v)) + rest) == Some((UpdateOperation(n.number, AndOp(v)), rest))
    ensures v.Native? ==> ParseOp(KindOf(v), OpBytes(Xor(n, v)) + rest) == Some((UpdateOperation(n.number, XorOp(v)), rest))
    ensures v.Native? ==> ParseOp(KindOf(v), OpBytes(Or(n, v)) + rest) == Some((UpdateOperation(n.number, OrOp(v)), rest))
  {
    ParseOpOfOpBytes(SetField(n, v), rest);
    ParseOpOfOpBytes(DeleteField(n), rest);
    ParseOpOfOpBytes(InsertField(n, v), rest);
    if v.Native? {
      ParseOpOfOpBytes(Add(n, v), rest);
      ParseOpOfOpBytes(And(n, v), rest);
      ParseOpOfOpBytes(Xor(n, v), rest);
      ParseOpOfOpBytes(Or(n, v), rest);
    }
  }

  /** The bytes of a list of operations, in list order. */
  function OpsBytes(ops: seq<UpdateOperation>): seq<byte>
  {
    if ops == [] then [] else OpBytes(ops[0]) + OpsBytes(ops[1..])
  }

  lemma {:induction false} OpsBytesAppend(a: seq<UpdateOperation>, b: seq<UpdateOperation>)
    ensures OpsBytes(a + b) == OpsBytes(a) + OpsBytes(b)
  {
    if a == [] {
      assert a + b == b;
    } else {
      assert (a + b)[0] == a[0] && (a + b)[1..] == a[1..] + b;
      OpsBytesAppend(a[1..], b);
      Rebracket(OpBytes(a[0]), OpsBytes(a[1..]), OpsBytes(b));
    }
  }

  lemma {:induction false} OpsBytesSnoc(ops: seq<UpdateOperation>, o: UpdateOperation)
    ensures OpsBytes(ops + [o]) == OpsBytes(ops) + OpBytes(o)
  {
    OpsBytesAppend(ops, [o]);
    assert OpsBytes([o]) == OpBytes(o) + OpsBytes([]);
  }

  /** The kinds of the operands of `ops`, in order. */
  function OperandKinds(ops: seq<UpdateOperation>): (kinds: seq<FieldKind>)
    ensures |kinds| == |ops|
  {
    if ops == [] then [] else [OperandKind(ops[0].op)] + OperandKinds(ops[1..])
  }

  /** The server's reading of one operation per kind, in order. */
  function ParseOps(kinds: seq<FieldKind>, s: seq<byte>): (r: Option<(seq<UpdateOperation>, seq<byte>)>)
    ensures r.Some? ==> |r.value.0| == |kinds|
  {
    if kinds == [] then Some(([], s))
    else
      match ParseOp(kinds[0], s)
      case None => None
      case Some((o, s1)) =>
        match ParseOps(kinds[1..], s1)
        case None => None
        case Some((more, rest)) => Some(([o] + more, rest))
  }

  /** Reading back a written list of operations, with their operand kinds,
      gives the list and consumes exactly its bytes. */
  lemma {:induction false} ParseOpsOfOpsBytes(ops: seq<UpdateOperation>, rest: seq<byte>)
    ensures ParseOps(OperandKinds(ops), OpsBytes(ops) + rest) == Some((ops, rest))
  {
    if ops == [] {
      assert [] + rest == rest;
    } else {
      ParseOpsOfOpsBytes(ops[1..], rest);
      ParseOpsCons(ops[0], ops[1..], rest);
      assert [ops[0]] + ops[1..] == ops;
    }
  }

  /** The step of `ParseOpsOfOpsBytes`: an operation, then the others. */
  lemma {:induction false} ParseOpsCons(o: UpdateOperation, others: seq<UpdateOperation>, rest: seq<byte>)
    requires ParseOps(OperandKinds(others), OpsBytes(others) + rest) == Some((others, rest))
    ensures ParseOps(OperandKinds([o] + others), OpsBytes([o] + others) + rest) == Some(([o] + others, rest))
  {
    var ops := [o] + others;
    assert ops[0] == o && ops[1..] == others;
    Rebracket(OpBytes(o), OpsBytes(others), rest);
    ParseOpOfOpBytes(o, OpsBytes(others) + rest);
    var kinds := OperandKinds(ops);
    assert kinds[0] == OperandKind(o.op) && kinds[1..] == OperandKinds(others);
  }

  /** The loop of `updateRequest` over the operations: appends each in list
      order. */
  method AppendOps(buf: Buffer, ops: seq<UpdateOperation>)
    modifies buf
    ensures buf.data == old(buf.data) + OpsBytes(ops)
  {
    for i := 0 to |ops|
      invariant buf.data == old(buf.data) + OpsBytes(ops[..i])
    {
      assert ops[..i + 1] == ops[..i] + [ops[i]];
      OpsBytesSnoc(ops[..i], ops[i]);
      Rebracket(old(buf.data), OpsBytes(ops[..i]), OpBytes(ops[i]));
      AppendOperation(buf, ops[i]);
    }
    assert ops[..|ops|] == ops;
  }
}
