/** Message codes, flag bits, insert actions, provenance metadata and the
    error taxonomy of the box client, together with the small value types
    (bytes, 32-bit words, Option, Result) every other module builds on. */
module Common {

  /** A byte of a wire payload. */
  type byte = b: int | 0 <= b < 0x100

  /** An unsigned 32-bit word (Swift `UInt32`). */
  type u32 = x: int | 0 <= x < 0x1_0000_0000

  datatype Option<T> = None | Some(value: T)

  /** The message types of the box protocol, with their wire codes. */
  datatype MessageType = Insert | Select | Update | Delete | ExecLua

  function Code(t: MessageType): (c: int)
    ensures 13 <= c <= 22
  {
    match t
    case Insert => 13
    case Select => 17
    case Update => 19
    case Delete => 21
    case ExecLua => 22
  }

  /** The raw-value initialiser every Swift enum with raw values has. */
  function MessageTypeOf(c: int): (t: Option<MessageType>)
    ensures t.Some? ==> Code(t.value) == c
  {
    if c == 13 then Some(Insert)
    else if c == 17 then Some(Select)
    else if c == 19 then Some(Update)
    else if c == 21 then Some(Delete)
    else if c == 22 then Some(ExecLua)
    else None
  }

  /** The codes are pairwise distinct: the code determines the type. */
  lemma CodeDeterminesType(t: MessageType)
    ensures MessageTypeOf(Code(t)) == Some(t)
  {
  }

  /** Bit 0 of the request flags asks the server to send the touched tuples back. */
  const WantResult: u32 := 0x1

  /** How an insert treats an existing tuple with the same primary key. */
  datatype InsertAction = SetTuple | AddTuple | ReplaceTuple

  function ActionBits(a: InsertAction): (bits: u32)
    ensures bits % 2 == 0
  {
    match a
    case SetTuple => 0x0
    case AddTuple => 0x2
    case ReplaceTuple => 0x4
  }

  function InsertActionOf(bits: u32): (a: Option<InsertAction>)
    ensures a.Some? ==> ActionBits(a.value) == bits
  {
    if bits == 0x0 then Some(SetTuple)
    else if bits == 0x2 then Some(AddTuple)
    else if bits == 0x4 then Some(ReplaceTuple)
    else None
  }

  function BitOr(a: u32, b: u32): (r: u32)
  {
    ((a as bv32) | (b as bv32)) as int
  }

  function BitAnd(a: u32, b: u32): (r: u32)
  {
    ((a as bv32) & (b as bv32)) as int
  }

  /** The flags word of a request: the action bits, or-ed with the
      want-result bit when a result is asked for. */
  function RequestFlags(actionBits: u32, wantResult: bool): (flags: u32)
  {
    if wantResult then BitOr(actionBits, WantResult) else actionBits
  }

  /** The inverse of `RequestFlags` for insert flags. */
  function SplitInsertFlags(flags: u32): (r: (Option<InsertAction>, bool))
  {
    var want := BitAnd(flags, WantResult);
    (InsertActionOf(flags - want), want != 0)
  }

  lemma {:induction false} InsertFlagsDetermineActionAndWant(a: InsertAction, wantResult: bool)
    ensures SplitInsertFlags(RequestFlags(ActionBits(a), wantResult)) == (Some(a), wantResult)
  {
    match a
    case SetTuple =>
      assert BitOr(0, 1) == 1 && BitAnd(1, 1) == 1 && BitAnd(0, 1) == 0;
    case AddTuple =>
      assert BitOr(2, 1) == 3 && BitAnd(3, 1) == 1 && BitAnd(2, 1) == 0;
    case ReplaceTuple =>
      assert BitOr(4, 1) == 5 && BitAnd(5, 1) == 1 && BitAnd(4, 1) == 0;
  }

  /** Which replica answered a request. */
  datatype Origin = Master | Replica

  /** Provenance of a record: the replica that answered and the owning
      shard, which is 0 when not supplied. */
  datatype StorageInfo = StorageInfo(from: Origin, shard: int := 0)

  lemma StorageInfoShardDefault(from: Origin)
    ensures StorageInfo(from).shard == 0
  {
  }

  /** An error raised by the transport; it is passed on unchanged. */
  datatype TransportError = TransportError(id: nat)

  /** What an operation of the client can fail with. */
  datatype Error =
    // the box client's own errors
    | ErrcodeOmitted
    | InvalidFieldSize
    | NotSingleTuple(count: nat)
      // a nonzero error code from the server, with the message that followed it
    | ServerError(code: u32, message: seq<byte>)
      // a failure of the transport, rethrown as is
    | Transport(cause: TransportError)
      // failures of the byte reader: a read past the end, a text that is not UTF-8
    | Truncated
    | InvalidUtf8

  datatype Result<T> = Ok(value: T) | Err(error: Error) {
    predicate IsFailure() {
      Err?
    }

    function PropagateFailure<U>(): Result<U>
      requires Err?
    {
      Err(error)
    }

    function Extract(): T
      requires Ok?
    {
      value
    }
  }

  /** What the transport hands back for a message: a reply payload with the
      replica it came from, or a transport failure. */
  datatype Response = Reply(payload: seq<byte>, from: Origin) | Failed(cause: TransportError)
}
