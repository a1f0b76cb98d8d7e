/** Byte-level primitives of the binary encoding the client writes and reads:
    fixed-width integers, the variable-length unsigned length prefix, UTF-8
    well-formedness, an append-only output buffer and a reading cursor.
    The byte order of fixed-width integers is little endian and the length
    prefix is 7-bit groups, least significant first, with the high bit of a
    byte set when another byte follows. A decoder takes the bytes still to
    be read and gives the value with the bytes that follow it. */
module Wire {
  import opened Common

  function Pow256(n: nat): (r: nat)
    ensures r >= 1
  {
    if n == 0 then 1 else 256 * Pow256(n - 1)
  }

  /** The `width` least significant bytes of `n`, least significant first. */
  function LittleEndian(n: nat, width: nat): (r: seq<byte>)
    ensures |r| == width
  {
    if width == 0 then [] else [n % 256] + LittleEndian(n / 256, width - 1)
  }

  function FromLittleEndian(s: seq<byte>): (n: nat)
    ensures n < Pow256(|s|)
  {
    if s == [] then 0 else s[0] + 256 * FromLittleEndian(s[1..])
  }

  lemma {:induction false} LittleEndianRoundTrip(n: nat, width: nat)
    requires n < Pow256(width)
    ensures FromLittleEndian(LittleEndian(n, width)) == n
  {
    if width > 0 {
      LittleEndianRoundTrip(n / 256, width - 1);
      assert LittleEndian(n, width)[1..] == LittleEndian(n / 256, width - 1);
    }
  }

  lemma {:induction false} FromLittleEndianRoundTrip(s: seq<byte>)
    ensures LittleEndian(FromLittleEndian(s), |s|) == s
  {
    if s != [] {
      FromLittleEndianRoundTrip(s[1..]);
      var n := FromLittleEndian(s);
      assert n % 256 == s[0] && n / 256 == FromLittleEndian(s[1..]);
    }
  }

  /** The fixed-width integer types of Swift that the client sends as fields. */
  datatype IntKind = Int8 | Int16 | Int32 | Int64 | UInt8 | UInt16 | UInt32 | UInt64

  /** The byte width of the type (its memory layout size). */
  function Width(k: IntKind): nat
  {
    match k
    case Int8 | UInt8 => 1
    case Int16 | UInt16 => 2
    case Int32 | UInt32 => 4
    case Int64 | UInt64 => 8
  }

  predicate Signed(k: IntKind)
  {
    k.Int8? || k.Int16? || k.Int32? || k.Int64?
  }

  /** The number of distinct values of the type. */
  function Modulus(k: IntKind): (m: nat)
    ensures m == Pow256(Width(k)) && m >= 256
  {
    assert Pow256(2) == 0x1_0000 && Pow256(4) == 0x1_0000_0000;
    assert Pow256(8) == 0x1_0000_0000_0000_0000;
    match k
    case Int8 | UInt8 => 0x100
    case Int16 | UInt16 => 0x1_0000
    case Int32 | UInt32 => 0x1_0000_0000
    case Int64 | UInt64 => 0x1_0000_0000_0000_0000
  }

  /** `v` is a value of the type. */
  predicate InRange(k: IntKind, v: int)
  {
    if Signed(k) then -(Modulus(k) / 2) <= v < Modulus(k) / 2 else 0 <= v < Modulus(k)
  }

  function TwosComplement(k: IntKind, v: int): (u: nat)
    requires InRange(k, v)
    ensures u < Modulus(k)
  {
    if v < 0 then v + Modulus(k) else v
  }

  function FromTwosComplement(k: IntKind, u: nat): (v: int)
    requires u < Modulus(k)
    ensures InRange(k, v) && TwosComplement(k, v) == u
  {
    if Signed(k) && u >= Modulus(k) / 2 then u - Modulus(k) else u
  }

  /** The in-memory bytes of a value of the type. */
  function NativeBytes(k: IntKind, v: int): (r: seq<byte>)
    requires InRange(k, v)
    ensures |r| == Width(k)
  {
    LittleEndian(TwosComplement(k, v), Width(k))
  }

  function U32Bytes(x: u32): (r: seq<byte>)
    ensures |r| == 4
  {
    NativeBytes(UInt32, x)
  }

  /** The first `n` bytes, and the bytes after them. */
  function TakeBytes(s: seq<byte>, n: nat): (r: Result<(seq<byte>, seq<byte>)>)
    ensures r.Ok? <==> n <= |s|
    ensures r.Ok? ==> |r.value.0| == n
  {
    if n <= |s| then Ok((s[..n], s[n..])) else Err(Truncated)
  }

  /** What `TakeBytes` takes and what it leaves are, together, its input. */
  lemma TakeBytesSplits(s: seq<byte>, n: nat)
    requires n <= |s|
    ensures TakeBytes(s, n).value.0 + TakeBytes(s, n).value.1 == s
  {
  }

  lemma TakeBytesOfAppend(w: seq<byte>, rest: seq<byte>)
    ensures TakeBytes(w + rest, |w|) == Ok((w, rest))
  {
  }

  function DecodeNative(k: IntKind, s: seq<byte>): (r: Result<(int, seq<byte>)>)
    ensures r.Ok? ==> InRange(k, r.value.0) && |r.value.1| + Width(k) == |s|
  {
    var b :- TakeBytes(s, Width(k));
    Ok((FromTwosComplement(k, FromLittleEndian(b.0)), b.1))
  }

  /** A fixed-width integer decodes from its own bytes, whatever follows. */
  lemma {:induction false} DecodeNativeOfNativeBytes(k: IntKind, v: int, rest: seq<byte>)
    requires InRange(k, v)
    ensures DecodeNative(k, NativeBytes(k, v) + rest) == Ok((v, rest))
  {
    TakeBytesOfAppend(NativeBytes(k, v), rest);
    LittleEndianRoundTrip(TwosComplement(k, v), Width(k));
  }

  function DecodeU32(s: seq<byte>): (r: Result<(u32, seq<byte>)>)
    ensures r.Ok? ==> |r.value.1| + 4 == |s|
  {
    var v :- DecodeNative(UInt32, s);
    Ok((v.0, v.1))
  }

  lemma {:induction false} DecodeU32OfU32Bytes(x: u32, rest: seq<byte>)
    ensures DecodeU32(U32Bytes(x) + rest) == Ok((x, rest))
  {
    DecodeNativeOfNativeBytes(UInt32, x, rest);
  }

  /** The variable-length encoding of an unsigned integer. */
  function VarUInt(n: nat): (r: seq<byte>)
    ensures |r| >= 1
    decreases n
  {
    if n < 0x80 then [n] else [0x80 + n % 0x80] + VarUInt(n / 0x80)
  }

  function DecodeVarUInt(s: seq<byte>): (r: Result<(nat, seq<byte>)>)
    ensures r.Ok? ==> |r.value.1| < |s|
    decreases |s|
  {
    if |s| == 0 then Err(Truncated)
    else if s[0] < 0x80 then Ok((s[0], s[1..]))
    else
      var more :- DecodeVarUInt(s[1..]);
      Ok((s[0] - 0x80 + 0x80 * more.0, more.1))
  }

  lemma {:induction false} DecodeVarUIntOfVarUInt(n: nat, rest: seq<byte>)
    ensures DecodeVarUInt(VarUInt(n) + rest) == Ok((n, rest))
    decreases n
  {
    if n >= 0x80 {
      DecodeVarUIntOfVarUInt(n / 0x80, rest);
      assert (VarUInt(n) + rest)[1..] == VarUInt(n / 0x80) + rest;
    } else {
      assert (VarUInt(n) + rest)[1..] == rest;
    }
  }

  predicate IsContinuation(b: byte)
  {
    0x80 <= b <= 0xBF
  }

  /** The length of the well-formed UTF-8 sequence that `b` starts with
      (Table 3-7 of the Unicode Standard), or 0 when it starts with none. */
  function ScalarLength(b: seq<byte>): (n: nat)
    ensures n <= |b| && n <= 4
  {
    if |b| == 0 then 0
    else if b[0] <= 0x7F then 1
    else if 0xC2 <= b[0] <= 0xDF then
      if |b| >= 2 && IsContinuation(b[1]) then 2 else 0
    else if 0xE0 <= b[0] <= 0xEF then
      var lo := if b[0] == 0xE0 then 0xA0 else 0x80;
      var hi := if b[0] == 0xED then 0x9F else 0xBF;
      if |b| >= 3 && lo <= b[1] <= hi && IsContinuation(b[2]) then 3 else 0
    else if 0xF0 <= b[0] <= 0xF4 then
      var lo := if b[0] == 0xF0 then 0x90 else 0x80;
      var hi := if b[0] == 0xF4 then 0x8F else 0xBF;
      if |b| >= 4 && lo <= b[1] <= hi && IsContinuation(b[2]) && IsContinuation(b[3]) then 4 else 0
    else 0
  }

  /** `b` is a well-formed UTF-8 byte sequence. */
  predicate ValidUtf8(b: seq<byte>)
    decreases |b|
  {
    b == [] || (ScalarLength(b) > 0 && ValidUtf8(b[ScalarLength(b)..]))
  }

  /** Takes `n` bytes as UTF-8 text; ill-formed text is a read failure. */
  function DecodeText(s: seq<byte>, n: nat): (r: Result<(seq<byte>, seq<byte>)>)
    ensures r.Ok? ==> ValidUtf8(r.value.0) && r.value.0 + r.value.1 == s && |r.value.0| == n
  {
    var b :- TakeBytes(s, n);
    if ValidUtf8(b.0) then Ok(b) else Err(InvalidUtf8)
  }

  /** A reader method did what the decoder `spec` describes: on success it
      returned the value and left the bytes after it, on failure it returned
      the error (where the cursor then stands is not specified: a failed
      read abandons the whole message). */
  predicate Stepped<T(==)>(spec: Result<(T, seq<byte>)>, r: Result<T>, after: seq<byte>)
  {
    match spec
    case Ok(v) => r == Ok(v.0) && after == v.1
    case Err(e) => r == Err(e)
  }

  /** Concatenation regrouped to the left. */
  lemma Rebracket(a: seq<byte>, b: seq<byte>, c: seq<byte>)
    ensures a + (b + c) == a + b + c
  {
  }

  /** An output buffer that only grows at its end, except for a fixed-width
      word written over bytes already there. */
  class Buffer {
    var data: seq<byte>

    constructor ()
      ensures data == []
    {
      data := [];
    }

    method AppendNative(k: IntKind, v: int)
      requires InRange(k, v)
      modifies this
      ensures data == old(data) + NativeBytes(k, v)
    {
      data := data + NativeBytes(k, v);
    }

    method AppendVarUInt(n: nat)
      modifies this
      ensures data == old(data) + VarUInt(n)
    {
      data := data + VarUInt(n);
    }

    method AppendBytes(b: seq<byte>)
      modifies this
      ensures data == old(data) + b
    {
      data := data + b;
    }

    /** Overwrites the `Width(k)` bytes at `at` with `v`; nothing else changes. */
    method WriteNativeAt(at: nat, k: IntKind, v: int)
      requires InRange(k, v) && at + Width(k) <= |data|
      modifies this
      ensures data == old(data)[..at] + NativeBytes(k, v) + old(data)[at + Width(k)..]
    {
      data := data[..at] + NativeBytes(k, v) + data[at + Width(k)..];
    }
  }

  /** A cursor over received bytes: the bytes not read yet. */
  class Reader {
    var rest: seq<byte>

    constructor (bytes: seq<byte>)
      ensures rest == bytes
    {
      rest := bytes;
    }

    method ReadU32() returns (r: Result<u32>)
      modifies this
      ensures Stepped(DecodeU32(old(rest)), r, rest)
    {
      var spec := DecodeU32(rest);
      if spec.Ok? {
        r, rest := Ok(spec.value.0), spec.value.1;
      } else {
        r := Err(spec.error);
      }
    }

    method ReadNative(k: IntKind) returns (r: Result<int>)
      modifies this
      ensures Stepped(DecodeNative(k, old(rest)), r, rest)
    {
      var spec := DecodeNative(k, rest);
      if spec.Ok? {
        r, rest := Ok(spec.value.0), spec.value.1;
      } else {
        r := Err(spec.error);
      }
    }

    method ReadVarUInt() returns (r: Result<nat>)
      modifies this
      ensures Stepped(DecodeVarUInt(old(rest)), r, rest)
    {
      var spec := DecodeVarUInt(rest);
      if spec.Ok? {
        r, rest := Ok(spec.value.0), spec.value.1;
      } else {
        r := Err(spec.error);
      }
    }

    method ReadBytes(n: nat) returns (r: Result<seq<byte>>)
      modifies this
      ensures Stepped(TakeBytes(old(rest), n), r, rest)
    {
      var spec := TakeBytes(rest, n);
      if spec.Ok? {
        r, rest := Ok(spec.value.0), spec.value.1;
      } else {
        r := Err(spec.error);
      }
    }

    method ReadText(n: nat) returns (r: Result<seq<byte>>)
      modifies this
      ensures Stepped(DecodeText(old(rest), n), r, rest)
    {
      var spec := DecodeText(rest, n);
      if spec.Ok? {
        r, rest := Ok(spec.value.0), spec.value.1;
      } else {
        r := Err(spec.error);
      }
    }
  }
}
