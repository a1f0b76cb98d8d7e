/** The record operations. The static ones select records by keys, on one
    shard or across shards; the instance ones insert, delete and update a
    mutable record and bring it in line with the server's answer.

    The exchange with the server is a parameter: each operation is handed
    the response the transport delivers for the message it builds, and
    returns that message so that its contract can say what was sent. */
module Records {
  import opened Common
  import opened Wire
  import opened FieldCodec
  import opened TupleLayout
  import opened KeyCodec
  import opened UpdateOps
  import opened OptionsOverlay
  import opened Requests
  import opened Responses

  // ---------------------------------------------------------------------
  // Selecting on one shard

  /** `select(shard:index:keys:offset:limit:options:)`: without keys nothing
      is sent and there are no records; otherwise one select is sent to
      `shard` and its response gives the records. */
  method SelectKeys(rt: RecordType, shard: int, index: Index, keys: seq<Key>, offset: u32, limit: u32,
                    o: Option<OverridenOptions>, response: Response)
    returns (r: Result<seq<Record>>, sent: Option<Message>)
    requires |keys| < 0x1_0000_0000
    ensures keys == [] ==> sent == None && r == Ok([])
    ensures keys != [] ==>
              sent.Some? && fresh(sent.value) && fresh(sent.value.options) &&
              sent.value.code == Code(Select) &&
              sent.value.data == SelectPayload(rt.namespace, index.number, offset, limit, keys) &&
              sent.value.options.Snapshot() == OverlayIfAny(o, FreshOptions(rt, Select).(shard := shard))
    ensures keys != [] ==> r == ResponseRecords(rt.defaults, Code(Select), shard, response, true)
  {
    if keys == [] {
      return Ok([]), None;
    }
    var m := SelectRequest(rt, shard, index, keys, offset, limit);
    ApplyIfAny(o, m.options);
    r := ProcessResponse(rt.defaults, m, response, true);
    sent := Some(m);
  }

  /** The record of a select by a unique key: none, the one, or an error
      naming how many came back when there were more. */
  function Single(records: seq<Record>): (r: Result<Option<Record>>)
    ensures r.Ok? <==> |records| <= 1
    ensures r.Ok? ==> (r.value.Some? <==> records != []) && (r.value.Some? ==> r.value.value == records[0])
    ensures r.Err? ==> r.error == NotSingleTuple(|records|)
  {
    if |records| == 1 then Ok(Some(records[0]))
    else if |records| == 0 then Ok(None)
    else Err(NotSingleTuple(|records|))
  }

  /** What a select by a unique key gives for the response of `shard`. */
  function UniqueSelection(defaults: seq<Property>, shard: int, response: Response): Result<Option<Record>>
  {
    var records :- ResponseRecords(defaults, Code(Select), shard, response, true);
    Single(records)
  }

  /** `select(shard:index:key:...)` on a unique index: a select of the one
      key, and at most one record. */
  method SelectUnique(rt: RecordType, shard: int, index: Index, key: Key, offset: u32, limit: u32,
                      o: Option<OverridenOptions>, response: Response)
    returns (r: Result<Option<Record>>, sent: Message)
    requires index.unique
    ensures fresh(sent) && fresh(sent.options) && sent.code == Code(Select)
    ensures sent.data == SelectPayload(rt.namespace, index.number, offset, limit, [key])
    ensures sent.options.Snapshot() == OverlayIfAny(o, FreshOptions(rt, Select).(shard := shard))
    ensures r == UniqueSelection(rt.defaults, shard, response)
  {
    var records, m := SelectKeys(rt, shard, index, [key], offset, limit, o, response);
    sent := m.value;
    if records.Err? {
      return Err(records.error), sent;
    }
    r := Single(records.value);
  }

  /** A unique select answered with tuples `ts` gives nothing for none,
      the record of the tuple for one, and fails naming the count for
      more. */
  lemma {:induction false} UniqueSelectOfReply(defaults: seq<Property>, ts: seq<seq<Property>>, from: Origin, shard: int)
    requires |ts| < 0x1_0000_0000 && AllSendable(defaults, ts)
    ensures UniqueSelection(defaults, shard, Reply(SelectReplyBytes(ts), from))
            == if |ts| == 0 then Ok(None)
               else if |ts| == 1 then Ok(Some(Record(ts[0], Some(StorageInfo(from, shard)))))
               else Err(NotSingleTuple(|ts|))
  {
    SelectReplyRoundTrip(defaults, ts, from, shard);
    if |ts| == 1 {
      assert ts[1..] == [];
    }
  }

  /** `select(shard:index:key:...)` on a non-unique index: a select of the
      one key, and all its records. */
  method SelectNonUnique(rt: RecordType, shard: int, index: Index, key: Key, offset: u32, limit: u32,
                         o: Option<OverridenOptions>, response: Response)
    returns (r: Result<seq<Record>>, sent: Message)
    requires !index.unique
    ensures fresh(sent) && fresh(sent.options) && sent.code == Code(Select)
    ensures sent.data == SelectPayload(rt.namespace, index.number, offset, limit, [key])
    ensures sent.options.Snapshot() == OverlayIfAny(o, FreshOptions(rt, Select).(shard := shard))
    ensures r == ResponseRecords(rt.defaults, Code(Select), shard, response, true)
  {
    var m;
    r, m := SelectKeys(rt, shard, index, [key], offset, limit, o, response);
    sent := m.value;
  }

  // ---------------------------------------------------------------------
  // Selecting across shards

  /** What the response of each shard asked gives, in the order asked;
      `reply` is the transport's answer for each shard. */
  function ShardOutcomes(defaults: seq<Property>, shards: seq<int>, reply: int -> Response): (rs: seq<Result<seq<Record>>>)
    ensures |rs| == |shards|
    ensures forall i :: 0 <= i < |shards| ==> rs[i] == ResponseRecords(defaults, Code(Select), shards[i], reply(shards[i]), true)
  {
    if shards == [] then []
    else [ResponseRecords(defaults, Code(Select), shards[0], reply(shards[0]), true)] + ShardOutcomes(defaults, shards[1..], reply)
  }

  /** `select(index:keys:options:)`: one select per shard asked, each with
      that shard's keys and the same overrides; the records of all the
      responses, shard after shard, or the first failure. Without keys
      nothing is sent. */
  method SelectAcrossShards(rt: RecordType, index: Index, keys: seq<(int, Key)>, o: Option<OverridenOptions>, reply: int -> Response)
    returns (r: Result<seq<Record>>, sent: seq<Message>, shards: seq<int>)
    requires |keys| < 0x1_0000_0000
    ensures |sent| == |shards|
    ensures forall shard :: shard in shards <==> exists j :: 0 <= j < |keys| && keys[j].0 == shard
    ensures forall i, j :: 0 <= i < j < |shards| ==> shards[i] != shards[j]
    ensures forall i :: 0 <= i < |sent| ==> fresh(sent[i]) && fresh(sent[i].options) && SentSelect(sent[i], rt, index, keys, o, shards[i])
    ensures r == Gather(ShardOutcomes(rt.defaults, shards, reply))
  {
    if keys == [] {
      return Ok([]), [], [];
    }
    sent, shards := SelectsWithOverrides(rt, index, keys, o);
    var responses := seq(|shards|, i requires 0 <= i < |shards| => reply(shards[i]));
    r := ProcessResponses(rt.defaults, sent, responses, true);
    SelectOutcomes(rt.defaults, sent, shards, responses, reply);
  }

  /** The messages of `select(index:keys:options:)`: those of
      `selectRequests`, with the overrides applied to each. */
  method SelectsWithOverrides(rt: RecordType, index: Index, keys: seq<(int, Key)>, o: Option<OverridenOptions>)
    returns (sent: seq<Message>, shards: seq<int>)
    requires |keys| < 0x1_0000_0000
    ensures |sent| == |shards|
    ensures forall shard :: shard in shards <==> exists j :: 0 <= j < |keys| && keys[j].0 == shard
    ensures forall i, j :: 0 <= i < j < |shards| ==> shards[i] != shards[j]
    ensures forall i :: 0 <= i < |sent| ==> fresh(sent[i]) && fresh(sent[i].options) && SentSelect(sent[i], rt, index, keys, o, shards[i])
    ensures forall i :: 0 <= i < |sent| ==> sent[i].options.shard == shards[i]
  {
    sent, shards := SelectRequests(rt, index, keys);
    if o.Some? {
      ApplyToEach(o.value, sent, shards, FreshOptions(rt, Select));
    }
    SentSelects(sent, rt, index, keys, o, shards);
  }

  /** `m` is the select `select(index:keys:options:)` sends to `shard`:
      that shard's keys with the default offset and limit, and the
      overrides over the default options. */
  ghost predicate SentSelect(m: Message, rt: RecordType, index: Index, keys: seq<(int, Key)>, o: Option<OverridenOptions>, shard: int)
    requires |keys| < 0x1_0000_0000
    reads m, m.options
  {
    m.code == Code(Select) &&
    m.data == SelectPayload(rt.namespace, index.number, DefaultOffset, DefaultLimit, KeysOfShard(keys, shard)) &&
    m.options.Snapshot() == OverlayIfAny(o, FreshOptions(rt, Select).(shard := shard))
  }

  /** The messages of `selectRequests`, once the overrides are applied. */
  lemma SentSelects(sent: seq<Message>, rt: RecordType, index: Index, keys: seq<(int, Key)>, o: Option<OverridenOptions>, shards: seq<int>)
    requires |keys| < 0x1_0000_0000 && |sent| == |shards|
    requires forall k :: 0 <= k < |sent| ==>
               sent[k].code == Code(Select) &&
               sent[k].data == SelectPayload(rt.namespace, index.number, DefaultOffset, DefaultLimit, KeysOfShard(keys, shards[k]))
    requires o.None? ==> forall k :: 0 <= k < |sent| ==> sent[k].options.Snapshot() == FreshOptions(rt, Select).(shard := shards[k])
    requires o.Some? ==> forall k :: 0 <= k < |sent| ==> sent[k].options.Snapshot() == Overlay(o.value, FreshOptions(rt, Select).(shard := shards[k]))
    ensures forall k :: 0 <= k < |sent| ==> SentSelect(sent[k], rt, index, keys, o, shards[k]) && sent[k].options.shard == shards[k]
  {
  }

  /** The overrides loop of `select(index:keys:options:)`: the same
      overrides applied to the options of each message. The messages go to
      distinct shards, so no options are overridden twice. */
  method ApplyToEach(o: OverridenOptions, sent: seq<Message>, ghost shards: seq<int>, ghost base: Options)
    requires |sent| == |shards|
    requires forall a, b :: 0 <= a < b < |shards| ==> shards[a] != shards[b]
    requires forall k :: 0 <= k < |sent| ==> sent[k].options.Snapshot() == base.(shard := shards[k])
    modifies set k | 0 <= k < |sent| :: sent[k].options
    ensures forall k :: 0 <= k < |sent| ==> sent[k].options.Snapshot() == Overlay(o, base.(shard := shards[k]))
  {
    for i := 0 to |sent|
      invariant forall k :: 0 <= k < i ==> sent[k].options.Snapshot() == Overlay(o, base.(shard := shards[k]))
      invariant forall k :: i <= k < |sent| ==> sent[k].options.Snapshot() == base.(shard := shards[k])
    {
      OptionsDistinct(sent, shards, i);
      Apply(o, sent[i].options);
    }
  }

  /** Messages sent to distinct shards have distinct options. */
  lemma OptionsDistinct(sent: seq<Message>, shards: seq<int>, i: nat)
    requires |sent| == |shards| && i < |sent|
    requires forall a, b :: 0 <= a < b < |shards| ==> shards[a] != shards[b]
    requires forall k :: 0 <= k < |sent| ==> sent[k].options.shard == shards[k]
    ensures forall k :: 0 <= k < |sent| && k != i ==> sent[k].options != sent[i].options
  {
  }

  /** The responses of selects sent to `shards`, one per shard, are the
      shards' outcomes. */
  lemma SelectOutcomes(defaults: seq<Property>, sent: seq<Message>, shards: seq<int>, responses: seq<Response>, reply: int -> Response)
    requires |sent| == |shards| == |responses|
    requires forall k :: 0 <= k < |sent| ==> sent[k].code == Code(Select) && sent[k].options.shard == shards[k]
    requires forall k :: 0 <= k < |responses| ==> responses[k] == reply(shards[k])
    ensures Outcomes(defaults, sent, responses, true) == ShardOutcomes(defaults, shards, reply)
  {
  }

  /** The records of a select across `shards`, block by block in the order
      of the shards: first a run of records from the reply of `shards[0]`,
      then the records from the other shards, likewise. Each record of a
      block carries the storage info of its shard's reply and has the
      schema of the default value. */
  ghost predicate FromShards(records: seq<Record>, defaults: seq<Property>, shards: seq<int>, reply: int -> Response)
    decreases |shards|
  {
    if shards == [] then records == []
    else
      exists n :: 0 <= n <= |records| && reply(shards[0]).Reply? &&
        FromReply(records[..n], defaults, StorageInfo(reply(shards[0]).from, shards[0])) &&
        FromShards(records[n..], defaults, shards[1..], reply)
  }

  /** The records of a select across shards come block by block, in the
      order of the shards asked, each carrying the storage info of its
      shard's reply and the schema of the default value. */
  lemma {:induction false} AcrossShardsProvenance(defaults: seq<Property>, shards: seq<int>, reply: int -> Response)
    requires Gather(ShardOutcomes(defaults, shards, reply)).Ok?
    ensures FromShards(Gather(ShardOutcomes(defaults, shards, reply)).value, defaults, shards, reply)
    decreases |shards|
  {
    if shards != [] {
      var outcomes := ShardOutcomes(defaults, shards, reply);
      assert outcomes[1..] == ShardOutcomes(defaults, shards[1..], reply);
      ResponseProvenance(defaults, Code(Select), shards[0], reply(shards[0]), true);
      AcrossShardsProvenance(defaults, shards[1..], reply);
      var a := outcomes[0].value;
      var b := Gather(outcomes[1..]).value;
      assert Gather(outcomes).value == a + b;
      assert (a + b)[..|a|] == a && (a + b)[|a|..] == b;
    }
  }

  /** Every record of a select across shards comes from one of the shards
      asked, with the replica that answered for it, and has the schema of
      the default value. */
  lemma {:induction false} FromShardsMembers(records: seq<Record>, defaults: seq<Property>, shards: seq<int>, reply: int -> Response)
    requires FromShards(records, defaults, shards, reply)
    ensures forall i :: 0 <= i < |records| ==>
              records[i].storageInfo.Some? && records[i].storageInfo.value.shard in shards &&
              reply(records[i].storageInfo.value.shard).Reply? &&
              records[i].storageInfo.value.from == reply(records[i].storageInfo.value.shard).from &&
              PropertiesInfo(records[i].tuple) == PropertiesInfo(defaults)
    decreases |shards|
  {
    if shards != [] {
      var n :| 0 <= n <= |records| && reply(shards[0]).Reply? &&
        FromReply(records[..n], defaults, StorageInfo(reply(shards[0]).from, shards[0])) &&
        FromShards(records[n..], defaults, shards[1..], reply);
      FromShardsMembers(records[n..], defaults, shards[1..], reply);
      forall i | 0 <= i < |records|
        ensures records[i].storageInfo.Some? && records[i].storageInfo.value.shard in shards
        ensures reply(records[i].storageInfo.value.shard).Reply?
        ensures records[i].storageInfo.value.from == reply(records[i].storageInfo.value.shard).from
        ensures PropertiesInfo(records[i].tuple) == PropertiesInfo(defaults)
      {
        if i < n {
          assert records[i] == records[..n][i];
        } else {
          assert records[i] == records[n..][i - n];
          assert records[i].storageInfo.value.shard in shards[1..];
        }
      }
    }
  }

  // ---------------------------------------------------------------------
  // Where the instance operations send

  /** The shard of a record's storage info, or 0 without one. */
  function ShardOf(si: Option<StorageInfo>): int
  {
    if si.Some? then si.value.shard else 0
  }

  /** The shard `insertRequest` sends to: for a `Sharded` record type the
      shard given, or else the one the record is stored on; any other
      record type, and a sharded one with neither, uses the transport's
      default. */
  function InsertShard(rt: RecordType, shard: int, si: Option<StorageInfo>): int
  {
    if rt.sharded && shard != 0 then shard
    else if rt.sharded && si.Some? then si.value.shard
    else FreshOptions(rt, MessageType.Insert).shard
  }

  /** The shard the instance `deleteRequest` sends to: for a `Sharded`
      record type the one the record is stored on, or 0; any other uses the
      transport's default. */
  function DeleteShard(rt: RecordType, si: Option<StorageInfo>): int
  {
    if rt.sharded then ShardOf(si) else FreshOptions(rt, MessageType.Delete).shard
  }

  /** The shard `updateRequest` sends to: for a `Sharded` record type the
      one the record is stored on, which it must have; any other uses the
      transport's default. */
  function UpdateShard(rt: RecordType, si: Option<StorageInfo>): int
    requires rt.sharded ==> si.Some?
  {
    if rt.sharded then si.value.shard else FreshOptions(rt, MessageType.Update).shard
  }

  /** The payload `updateRequest(_:wantResult:)` writes: namespace and
      flags, the key the index takes from the tuple, the number of
      operations, then each operation in order. */
  method UpdateData(namespace: u32, flags: u32, ix: Index, tuple: seq<Property>, ops: seq<UpdateOperation>) returns (data: seq<byte>)
    requires |ops| < 0x1_0000_0000
    ensures data == UpdatePayload(namespace, flags, ExtractKey(ix, tuple), ops)
  {
    var buf := new Buffer();
    buf.AppendNative(UInt32, namespace);
    assert buf.data == U32Bytes(namespace);
    buf.AppendNative(UInt32, flags);
    AppendKeyFrom(buf, ix, tuple);
    buf.AppendNative(UInt32, |ops|);
    AppendOps(buf, ops);
    HeaderLayout2(namespace, flags);
    data := buf.data;
  }

  // ---------------------------------------------------------------------
  // What an answer does to a record

  /** The state an answer changes: the tuple and the storage info. */
  type State = (seq<Property>, Option<StorageInfo>)

  /** The instance `processResponse(of:wantResult:)` on a record with tuple
      `tuple` and storage info `si`, for a message sent to `shard`: the
      checks of the response; then, when a result is wanted and at least
      one tuple was touched, the first tuple's fields over the record's own
      and the storage info of the reply. */
  function Synced(tuple: seq<Property>, si: Option<StorageInfo>, shard: int, response: Response, wantResult: bool): (r: Result<State>)
    ensures r.Ok? ==> response.Reply? && PropertiesInfo(r.value.0) == PropertiesInfo(tuple)
    ensures r.Ok? && r.value != (tuple, si) ==> wantResult && r.value.1 == Some(StorageInfo(response.from, shard))
  {
    var answer :- CheckReply(response, shard);
    if !wantResult then Ok((tuple, si))
    else
      var count :- DecodeU32(answer.0);
      if count.0 == 0 then Ok((tuple, si))
      else
        var t :- DecodeUnsafeTuple(count.1);
        var synced :- DecodeOnto(tuple, t.0.data, t.0.cardinality);
        Ok((synced, Some(answer.1)))
  }

  /** A reply that touched tuples and sent the first one back gives the
      record that tuple and the storage info of the reply. */
  lemma {:induction false} SyncOfReply(tuple: seq<Property>, si: Option<StorageInfo>, shard: int, touched: u32,
                                       t: seq<Property>, rest: seq<byte>, from: Origin)
    requires touched > 0 && Sendable(tuple, t)
    ensures Synced(tuple, si, shard, Reply(U32Bytes(0) + U32Bytes(touched) + TupleReplyBytes(t) + rest, from), true)
            == Ok((t, Some(StorageInfo(from, shard))))
  {
    var body := TupleReplyBytes(t) + rest;
    Rebracket(U32Bytes(0), U32Bytes(touched), body);
    Rebracket(U32Bytes(0) + U32Bytes(touched), TupleReplyBytes(t), rest);
    CheckReplyOfErrcode(0, U32Bytes(touched) + body, from, shard);
    DecodeU32OfU32Bytes(touched, body);
    DecodeTupleReply(tuple, t, rest);
  }

  /** A successful reply leaves the record as it was when no result is
      wanted, or when no tuple was touched. */
  lemma {:induction false} SyncWithoutTuple(tuple: seq<Property>, si: Option<StorageInfo>, shard: int, rest: seq<byte>, from: Origin)
    ensures Synced(tuple, si, shard, Reply(U32Bytes(0) + rest, from), false) == Ok((tuple, si))
    ensures Synced(tuple, si, shard, Reply(U32Bytes(0) + U32Bytes(0) + rest, from), true) == Ok((tuple, si))
  {
    CheckReplyOfErrcode(0, rest, from, shard);
    Rebracket(U32Bytes(0), U32Bytes(0), rest);
    CheckReplyOfErrcode(0, U32Bytes(0) + rest, from, shard);
    DecodeU32OfU32Bytes(0, rest);
  }

  /** A reply with an error code fails with the server's error. */
  lemma {:induction false} SyncServerError(tuple: seq<Property>, si: Option<StorageInfo>, shard: int, errcode: u32,
                                           message: seq<byte>, from: Origin, wantResult: bool)
    requires errcode != 0 && ValidUtf8(message)
    ensures Synced(tuple, si, shard, Reply(U32Bytes(errcode) + message, from), wantResult) == Err(ServerError(errcode, message))
  {
    CheckReplyOfErrcode(errcode, message, from, shard);
  }

  /** `insert(shard:action:wantResult:options:)` from its answer: with a
      result wanted, the sync; otherwise the checks, then the storage info
      of the reply. */
  function Inserted(tuple: seq<Property>, si: Option<StorageInfo>, shard: int, response: Response, wantResult: bool): (r: Result<State>)
    ensures r.Ok? ==> response.Reply? && PropertiesInfo(r.value.0) == PropertiesInfo(tuple)
    ensures r.Ok? && !wantResult ==> r.value == (tuple, Some(StorageInfo(response.from, shard)))
  {
    if wantResult then Synced(tuple, si, shard, response, true)
    else
      var answer :- CheckReply(response, shard);
      Ok((tuple, Some(answer.1)))
  }

  /** Without a result, a successful insert keeps the tuple and records
      where it is stored: the replica that answered and the shard sent to. */
  lemma {:induction false} InsertWithoutResult(tuple: seq<Property>, si: Option<StorageInfo>, shard: int, rest: seq<byte>, from: Origin)
    ensures Inserted(tuple, si, shard, Reply(U32Bytes(0) + rest, from), false) == Ok((tuple, Some(StorageInfo(from, shard))))
  {
    CheckReplyOfErrcode(0, rest, from, shard);
  }

  /** `delete(wantResult:options:)` from its answer: the sync, then no
      storage info. */
  function Deleted(tuple: seq<Property>, si: Option<StorageInfo>, shard: int, response: Response, wantResult: bool): (r: Result<State>)
    ensures r.Ok? <==> Synced(tuple, si, shard, response, wantResult).Ok?
    ensures r.Ok? ==> r.value.1 == None && PropertiesInfo(r.value.0) == PropertiesInfo(tuple)
  {
    var synced :- Synced(tuple, si, shard, response, wantResult);
    Ok((synced.0, None))
  }

  /** A transport error reaches the caller of `sync`, `insert` or
      `delete` unchanged, and the record is left as it was. */
  lemma TransportErrorLeavesRecord(tuple: seq<Property>, si: Option<StorageInfo>, shard: int, cause: TransportError, wantResult: bool)
    ensures Synced(tuple, si, shard, Failed(cause), wantResult) == Err(Transport(cause))
    ensures Inserted(tuple, si, shard, Failed(cause), wantResult) == Err(Transport(cause))
    ensures Deleted(tuple, si, shard, Failed(cause), wantResult) == Err(Transport(cause))
  {
  }

  /** A delete answered with the deleted tuple leaves the record holding
      that tuple, and stored nowhere. */
  lemma {:induction false} DeleteOfReply(tuple: seq<Property>, si: Option<StorageInfo>, shard: int, touched: u32,
                                         t: seq<Property>, rest: seq<byte>, from: Origin)
    requires touched > 0 && Sendable(tuple, t)
    ensures Deleted(tuple, si, shard, Reply(U32Bytes(0) + U32Bytes(touched) + TupleReplyBytes(t) + rest, from), true) == Ok((t, None))
  {
    SyncOfReply(tuple, si, shard, touched, t, rest, from);
  }

  // ---------------------------------------------------------------------
  // Mutable records

  /** A mutable record of record type `rt`: its tuple, where it is stored,
      and, for a record that queues updates, the operations not sent yet. */
  class MutableRecord {
    const rt: RecordType
    var tuple: seq<Property>
    var storageInfo: Option<StorageInfo>
    var updateQueue: seq<UpdateOperation>

    /** `init(tuple:storageInfo:)`. */
    constructor (rt: RecordType, tuple: seq<Property>, storageInfo: StorageInfo)
      ensures this.rt == rt && this.tuple == tuple && this.storageInfo == Some(storageInfo) && updateQueue == []
    {
      this.rt := rt;
      this.tuple := tuple;
      this.storageInfo := Some(storageInfo);
      updateQueue := [];
    }

    /** The record after an operation whose outcome, computed from the
        tuple `t0` and storage info `si0` it had before, is `outcome`: on
        success the new tuple and storage info; on failure the error, and
        the record as it was. */
    ghost predicate Became(outcome: Result<State>, r: Result<()>, t0: seq<Property>, si0: Option<StorageInfo>)
      reads this
    {
      match outcome
      case Ok(s) => r == Ok(()) && tuple == s.0 && storageInfo == s.1
      case Err(e) => r == Err(e) && tuple == t0 && storageInfo == si0
    }

    /** The instance `processResponse(of:wantResult:)`. */
    method ProcessResponse(m: Message, response: Response, wantResult: bool) returns (r: Result<()>)
      modifies this
      ensures Became(Synced(old(tuple), old(storageInfo), m.options.shard, response, wantResult), r, old(tuple), old(storageInfo))
      ensures updateQueue == old(updateQueue)
    {
      var answer := OpenReply(m, response);
      if answer.Err? {
        return Err(answer.error);
      }
      var reader := answer.value.0;
      var si := answer.value.1;
      if !wantResult {
        return Ok(());
      }
      var count := reader.ReadU32();
      if count.Err? {
        return Err(count.error);
      }
      if count.value > 0 {
        var t := ReadUnsafeTuple(reader);
        if t.Err? {
          return Err(t.error);
        }
        var synced := InitFromUnsafe(tuple, t.value);
        if synced.Err? {
          return Err(synced.error);
        }
        tuple := synced.value;
        storageInfo := Some(si);
      }
      return Ok(());
    }

    /** `insertRequest(shard:action:wantResult:)`: an insert of the
        record's tuple with the action and result flags. */
    method InsertRequest(shard: int, action: InsertAction, wantResult: bool) returns (m: Message)
      requires |Fields(tuple)| < 0x1_0000_0000
      ensures fresh(m) && fresh(m.options) && m.code == Code(MessageType.Insert)
      ensures m.data == InsertPayload(rt.namespace, RequestFlags(ActionBits(action), wantResult), tuple)
      ensures m.options.Snapshot() == FreshOptions(rt, MessageType.Insert).(shard := InsertShard(rt, shard, storageInfo))
    {
      var flags := RequestFlags(ActionBits(action), wantResult);
      var buf := new Buffer();
      buf.AppendNative(UInt32, rt.namespace);
      assert buf.data == U32Bytes(rt.namespace);
      buf.AppendNative(UInt32, flags);
      AppendTuple(buf, tuple);
      InsertPayloadLayout(rt.namespace, flags, tuple);
      m := new Message(MessageType.Insert, buf.data, rt.cluster.base, rt.cluster.temporaryFlag);
      if rt.sharded {
        if shard != 0 {
          m.options.shard := shard;
        } else if storageInfo.Some? {
          m.options.shard := storageInfo.value.shard;
        }
      }
    }

    /** `insert(shard:action:wantResult:options:)`. */
    method Insert(shard: int, action: InsertAction, wantResult: bool, o: Option<OverridenOptions>, response: Response)
      returns (r: Result<()>, m: Message)
      requires |Fields(tuple)| < 0x1_0000_0000
      modifies this
      ensures fresh(m) && fresh(m.options) && m.code == Code(MessageType.Insert)
      ensures m.data == InsertPayload(rt.namespace, RequestFlags(ActionBits(action), wantResult), old(tuple))
      ensures m.options.Snapshot() == OverlayIfAny(o, FreshOptions(rt, MessageType.Insert).(shard := InsertShard(rt, shard, old(storageInfo))))
      ensures Became(Inserted(old(tuple), old(storageInfo), InsertShard(rt, shard, old(storageInfo)), response, wantResult),
                     r, old(tuple), old(storageInfo))
      ensures updateQueue == old(updateQueue)
    {
      m := InsertRequest(shard, action, wantResult);
      ApplyIfAny(o, m.options);
      if wantResult {
        r := ProcessResponse(m, response, true);
      } else {
        var answer := OpenReply(m, response);
        if answer.Err? {
          return Err(answer.error), m;
        }
        storageInfo := Some(answer.value.1);
        r := Ok(());
      }
    }

    /** The instance `deleteRequest(wantResult:)`: a delete by the primary
        key of the tuple, to the shard the record is stored on. */
    method DeleteRequest(wantResult: bool) returns (m: Message)
      ensures fresh(m) && fresh(m.options) && m.code == Code(MessageType.Delete)
      ensures m.data == DeletePayload(rt.namespace, RequestFlags(0, wantResult), ExtractKey(rt.primaryKey, tuple))
      ensures m.options.Snapshot() == FreshOptions(rt, MessageType.Delete).(shard := DeleteShard(rt, storageInfo))
    {
      m := Requests.DeleteRequest(rt, ShardOf(storageInfo), ExtractKey(rt.primaryKey, tuple), wantResult);
    }

    /** `delete(wantResult:options:)`. */
    method Delete(wantResult: bool, o: Option<OverridenOptions>, response: Response) returns (r: Result<()>, m: Message)
      modifies this
      ensures fresh(m) && fresh(m.options) && m.code == Code(MessageType.Delete)
      ensures m.data == DeletePayload(rt.namespace, RequestFlags(0, wantResult), ExtractKey(rt.primaryKey, old(tuple)))
      ensures m.options.Snapshot() == OverlayIfAny(o, FreshOptions(rt, MessageType.Delete).(shard := DeleteShard(rt, old(storageInfo))))
      ensures Became(Deleted(old(tuple), old(storageInfo), DeleteShard(rt, old(storageInfo)), response, wantResult),
                     r, old(tuple), old(storageInfo))
      ensures updateQueue == old(updateQueue)
    {
      m := DeleteRequest(wantResult);
      ApplyIfAny(o, m.options);
      r := ProcessResponse(m, response, wantResult);
      if r.Ok? {
        storageInfo := None;
      }
    }

    /** `updateRequest(_:wantResult:)`: an update by the primary key of the
        tuple with the operations in order. A `Sharded` record type sends it
        to the shard the record is stored on, which the record must have. */
    method UpdateRequest(ops: seq<UpdateOperation>, wantResult: bool) returns (m: Message)
      requires rt.sharded ==> storageInfo.Some?
      requires |ops| < 0x1_0000_0000
      ensures fresh(m) && fresh(m.options) && m.code == Code(MessageType.Update)
      ensures m.data == UpdatePayload(rt.namespace, RequestFlags(0, wantResult), ExtractKey(rt.primaryKey, tuple), ops)
      ensures m.options.Snapshot() == FreshOptions(rt, MessageType.Update).(shard := UpdateShard(rt, storageInfo))
    {
      var data := UpdateData(rt.namespace, RequestFlags(0, wantResult), rt.primaryKey, tuple, ops);
      m := new Message(MessageType.Update, data, rt.cluster.base, rt.cluster.temporaryFlag);
      if rt.sharded {
        m.options.shard := storageInfo.value.shard;
      }
    }

    /** `update(_:wantResult:options:)`: nothing is sent for no operations. */
    method Update(ops: seq<UpdateOperation>, wantResult: bool, o: Option<OverridenOptions>, response: Response)
      returns (r: Result<()>, sent: Option<Message>)
      requires ops != [] && rt.sharded ==> storageInfo.Some?
      requires |ops| < 0x1_0000_0000
      modifies this
      ensures ops == [] ==> sent == None && r == Ok(()) && tuple == old(tuple) && storageInfo == old(storageInfo)
      ensures ops != [] ==>
                sent.Some? && fresh(sent.value) && fresh(sent.value.options) && sent.value.code == Code(MessageType.Update) &&
                sent.value.data == UpdatePayload(rt.namespace, RequestFlags(0, wantResult), ExtractKey(rt.primaryKey, old(tuple)), ops) &&
                sent.value.options.Snapshot() == OverlayIfAny(o, FreshOptions(rt, MessageType.Update).(shard := UpdateShard(rt, old(storageInfo))))
      ensures ops != [] ==>
                Became(Synced(old(tuple), old(storageInfo), UpdateShard(rt, old(storageInfo)), response, wantResult),
                       r, old(tuple), old(storageInfo))
      ensures updateQueue == old(updateQueue)
    {
      if ops == [] {
        return Ok(()), None;
      }
      var m := UpdateRequest(ops, wantResult);
      ApplyIfAny(o, m.options);
      r := ProcessResponse(m, response, wantResult);
      sent := Some(m);
    }

    /** The queued `updateRequest(wantResult:)`: an update with the queued
        operations, after which the queue is empty. */
    method UpdateRequestQueued(wantResult: bool) returns (m: Message)
      requires rt.sharded ==> storageInfo.Some?
      requires |updateQueue| < 0x1_0000_0000
      modifies this
      ensures updateQueue == [] && tuple == old(tuple) && storageInfo == old(storageInfo)
      ensures fresh(m) && fresh(m.options) && m.code == Code(MessageType.Update)
      ensures m.data == UpdatePayload(rt.namespace, RequestFlags(0, wantResult), ExtractKey(rt.primaryKey, tuple), old(updateQueue))
      ensures m.options.Snapshot() == FreshOptions(rt, MessageType.Update).(shard := UpdateShard(rt, storageInfo))
    {
      m := UpdateRequest(updateQueue, wantResult);
      updateQueue := [];
    }

    /** The queued `update(wantResult:options:)`: nothing is sent for an
        empty queue; otherwise an update with the queued operations. The
        queue is empty afterwards, whether the update succeeded or not. */
    method UpdateQueued(wantResult: bool, o: Option<OverridenOptions>, response: Response)
      returns (r: Result<()>, sent: Option<Message>)
      requires updateQueue != [] && rt.sharded ==> storageInfo.Some?
      requires |updateQueue| < 0x1_0000_0000
      modifies this
      ensures updateQueue == []
      ensures old(updateQueue) == [] ==> sent == None && r == Ok(()) && tuple == old(tuple) && storageInfo == old(storageInfo)
      ensures old(updateQueue) != [] ==>
                sent.Some? && fresh(sent.value) && fresh(sent.value.options) && sent.value.code == Code(MessageType.Update) &&
                sent.value.data == UpdatePayload(rt.namespace, RequestFlags(0, wantResult), ExtractKey(rt.primaryKey, old(tuple)), old(updateQueue)) &&
                sent.value.options.Snapshot() == OverlayIfAny(o, FreshOptions(rt, MessageType.Update).(shard := UpdateShard(rt, old(storageInfo))))
      ensures old(updateQueue) != [] ==>
                Became(Synced(old(tuple), old(storageInfo), UpdateShard(rt, old(storageInfo)), response, wantResult),
                       r, old(tuple), old(storageInfo))
    {
      if updateQueue == [] {
        return Ok(()), None;
      }
      r, sent := Update(updateQueue, wantResult, o, response);
      updateQueue := [];
    }
  }
}
