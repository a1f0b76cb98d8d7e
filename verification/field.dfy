/** The field codec: every scalar of a tuple travels as a variable-length
    length prefix followed by its payload bytes. A fixed-width integer also
    insists that the prefix equals its byte width. */
module FieldCodec {
  import opened Common
  import opened Wire

  /** The Swift type of a field, as far as the wire format cares. */
  datatype FieldKind = NativeKind(intKind: IntKind) | BlobKind | TextKind

  /** A field value: a fixed-width integer, an opaque byte blob, or a text
      held as its UTF-8 bytes. */
  datatype FieldValue = Native(kind: IntKind, value: int) | Blob(bytes: seq<byte>) | Text(utf8: seq<byte>)

  /** What the Swift types guarantee of a value: an integer fits its type and
      a string is well-formed UTF-8. */
  predicate WellFormed(f: FieldValue)
  {
    match f
    case Native(k, v) => InRange(k, v)
    case Blob(_) => true
    case Text(b) => ValidUtf8(b)
  }

  type Field = f: FieldValue | WellFormed(f) witness Blob([])

  function KindOf(f: FieldValue): FieldKind
  {
    match f
    case Native(k, _) => NativeKind(k)
    case Blob(_) => BlobKind
    case Text(_) => TextKind
  }

  /** The bytes after the length prefix. */
  function Payload(f: Field): seq<byte>
  {
    match f
    case Native(k, v) => NativeBytes(k, v)
    case Blob(b) => b
    case Text(b) => b
  }

  function FieldBytes(f: Field): seq<byte>
  {
    VarUInt(|Payload(f)|) + Payload(f)
  }

  /** A native integer is its byte width as a prefix, then exactly that many
      value bytes. */
  lemma {:induction false} NativeFieldLayout(k: IntKind, v: int)
    requires InRange(k, v)
    ensures FieldBytes(Native(k, v)) == VarUInt(Width(k)) + NativeBytes(k, v)
    ensures |FieldBytes(Native(k, v))| == |VarUInt(Width(k))| + Width(k)
  {
  }

  /** Reads one field of the given kind: the length prefix, then the
      payload. A native integer whose prefix is not its width fails. */
  function DecodeField(kind: FieldKind, s: seq<byte>): (r: Result<(Field, seq<byte>)>)
    ensures r.Ok? ==> KindOf(r.value.0) == kind && |r.value.1| < |s|
  {
    var size :- DecodeVarUInt(s);
    match kind
    case NativeKind(k) =>
      if size.0 != Width(k) then Err(InvalidFieldSize)
      else
        var v :- DecodeNative(k, size.1);
        var f: Field := Native(k, v.0);
        Ok((f, v.1))
    case BlobKind =>
      var b :- TakeBytes(size.1, size.0);
      var f: Field := Blob(b.0);
      Ok((f, b.1))
    case TextKind =>
      var t :- DecodeText(size.1, size.0);
      var f: Field := Text(t.0);
      Ok((f, t.1))
  }

  /** Decoding a field from its own encoding gives it back and consumes
      exactly the bytes written, whatever follows them. */
  lemma {:induction false} DecodeFieldOfFieldBytes(f: Field, rest: seq<byte>)
    ensures DecodeField(KindOf(f), FieldBytes(f) + rest) == Ok((f, rest))
  {
    var payload := Payload(f);
    DecodeVarUIntOfVarUInt(|payload|, payload + rest);
    Rebracket(VarUInt(|payload|), payload, rest);
    match f
    case Native(k, v) =>
      DecodeNativeOfNativeBytes(k, v, rest);
    case Blob(b) =>
      TakeBytesOfAppend(b, rest);
    case Text(b) =>
      TakeBytesOfAppend(b, rest);
  }

  /** A prefix that differs from the integer's width fails the read with
      `InvalidFieldSize` before any value byte is looked at. */
  lemma {:induction false} DecodeNativeWrongSize(k: IntKind, s: seq<byte>)
    requires DecodeVarUInt(s).Ok? && DecodeVarUInt(s).value.0 != Width(k)
    ensures DecodeField(NativeKind(k), s) == Err(InvalidFieldSize)
  {
  }

  /** The encodings of `fs`, one after the other. */
  function FieldsBytes(fs: seq<Field>): seq<byte>
  {
    if fs == [] then [] else FieldBytes(fs[0]) + FieldsBytes(fs[1..])
  }

  lemma {:induction false} FieldsBytesAppend(a: seq<Field>, b: seq<Field>)
    ensures FieldsBytes(a + b) == FieldsBytes(a) + FieldsBytes(b)
  {
    if a != [] {
      assert (a + b)[0] == a[0] && (a + b)[1..] == a[1..] + b;
      FieldsBytesAppend(a[1..], b);
      assert FieldsBytes(a + b) == FieldBytes(a[0]) + FieldsBytes(a[1..] + b);
    } else {
      assert a + b == b;
    }
  }

  lemma {:induction false} FieldsBytesSnoc(fs: seq<Field>, f: Field)
    ensures FieldsBytes(fs + [f]) == FieldsBytes(fs) + FieldBytes(f)
  {
    FieldsBytesAppend(fs, [f]);
    assert FieldsBytes([f]) == FieldBytes(f) + FieldsBytes([]);
  }

  lemma {:induction false} FieldsBytesCons(f: Field, fs: seq<Field>)
    ensures FieldsBytes([f] + fs) == FieldBytes(f) + FieldsBytes(fs)
  {
    assert ([f] + fs)[0] == f && ([f] + fs)[1..] == fs;
    assert [] + FieldsBytes(fs) == FieldsBytes(fs);
  }

  function KindsOf(fs: seq<Field>): (ks: seq<FieldKind>)
    ensures |ks| == |fs|
  {
    if fs == [] then [] else [KindOf(fs[0])] + KindsOf(fs[1..])
  }

  /** Reads one field of each of the given kinds, in order. */
  function DecodeFields(kinds: seq<FieldKind>, s: seq<byte>): (r: Result<(seq<Field>, seq<byte>)>)
    ensures r.Ok? ==> KindsOf(r.value.0) == kinds && |r.value.1| <= |s|
    decreases |kinds|
  {
    if kinds == [] then Ok(([], s))
    else
      var f :- DecodeField(kinds[0], s);
      var more :- DecodeFields(kinds[1..], f.1);
      Ok(([f.0] + more.0, more.1))
  }

  /** Reading back the encodings of a sequence of fields with their kinds
      gives the fields and consumes exactly their bytes. */
  lemma {:induction false} DecodeFieldsOfFieldsBytes(fs: seq<Field>, rest: seq<byte>)
    ensures DecodeFields(KindsOf(fs), FieldsBytes(fs) + rest) == Ok((fs, rest))
  {
    if fs == [] {
      assert [] + rest == rest;
    } else {
      var f := fs[0];
      Rebracket(FieldBytes(f), FieldsBytes(fs[1..]), rest);
      DecodeFieldOfFieldBytes(f, FieldsBytes(fs[1..]) + rest);
      DecodeFieldsOfFieldsBytes(fs[1..], rest);
      assert KindsOf(fs)[1..] == KindsOf(fs[1..]);
      assert [f] + fs[1..] == fs;
    }
  }

  /** Appends one field; the bytes already in the buffer stay as they were. */
  method AppendField(buf: Buffer, f: Field)
    modifies buf
    ensures buf.data == old(buf.data) + FieldBytes(f)
  {
    ghost var d := buf.data;
    match f {
      case Native(k, v) =>
        buf.AppendVarUInt(Width(k));
        buf.AppendNative(k, v);
      case Blob(b) =>
        buf.AppendVarUInt(|b|);
        buf.AppendBytes(b);
      case Text(b) =>
        buf.AppendVarUInt(|b|);
        buf.AppendBytes(b);
    }
    Rebracket(d, VarUInt(|Payload(f)|), Payload(f));
  }

  /** Reads one field of the given kind. A native field whose prefix is not
      its width fails with `InvalidFieldSize` and the cursor stops right
      after the prefix: no value is read. */
  method ReadField(r: Reader, kind: FieldKind) returns (res: Result<Field>)
    modifies r
    ensures Stepped(DecodeField(kind, old(r.rest)), res, r.rest)
    ensures kind.NativeKind? && DecodeVarUInt(old(r.rest)).Ok?
            && DecodeVarUInt(old(r.rest)).value.0 != Width(kind.intKind)
            ==> r.rest == DecodeVarUInt(old(r.rest)).value.1
  {
    var size := r.ReadVarUInt();
    if size.Err? {
      return Err(size.error);
    }
    match kind
    case NativeKind(k) =>
      if size.value != Width(k) {
        return Err(InvalidFieldSize);
      }
      var v := r.ReadNative(k);
      if v.Err? {
        return Err(v.error);
      }
      res := Ok(Native(k, v.value));
    case BlobKind =>
      var b := r.ReadBytes(size.value);
      if b.Err? {
        return Err(b.error);
      }
      res := Ok(Blob(b.value));
    case TextKind =>
      var t := r.ReadText(size.value);
      if t.Err? {
        return Err(t.error);
      }
      res := Ok(Text(t.value));
  }
}
