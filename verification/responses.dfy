/** Reading responses into records. Every reply opens with a u32 error
    code; a nonzero code is followed by the server's message, a zero code by
    the answer. A select's answer is a u32 count and that many tuples; an
    insert's count is the number of touched tuples, and at most one tuple
    follows it. Each tuple is decoded onto the record type's default
    value. */
module Responses {
  import opened Common
  import opened Wire
  import opened FieldCodec
  import opened TupleLayout
  import opened KeyCodec
  import opened OptionsOverlay

  /** A record as a request returns it: its tuple and where it came from. */
  datatype Record = Record(tuple: seq<Property>, storageInfo: Option<StorageInfo>)

  /** The checks every response goes through before its answer is read: a
      transport failure is passed on, an empty payload has no error code, a
      nonzero error code fails with the server's message (the rest of the
      payload, as text). Otherwise gives the answer bytes and the storage
      info of the records in it: the replica that answered and the shard
      the message was sent to. */
  function CheckReply(response: Response, shard: int): (r: Result<(seq<byte>, StorageInfo)>)
    ensures r.Ok? ==> response.Reply? && r.value.1 == StorageInfo(response.from, shard)
    ensures r.Ok? ==> |r.value.0| + 4 == |response.payload|
  {
    match response
    case Failed(cause) => Err(Transport(cause))
    case Reply(payload, from) =>
      if |payload| == 0 then Err(ErrcodeOmitted)
      else
        var errcode :- DecodeU32(payload);
        if errcode.0 != 0 then
          var message :- DecodeText(errcode.1, |errcode.1|);
          Err(ServerError(errcode.0, message.0))
        else Ok((errcode.1, StorageInfo(from, shard)))
  }

  /** The outcome of a reply by its error code: zero admits the rest as the
      answer; any other code fails with the rest as the server's message,
      unless that is not UTF-8 text. */
  lemma {:induction false} CheckReplyOfErrcode(errcode: u32, rest: seq<byte>, from: Origin, shard: int)
    ensures CheckReply(Reply(U32Bytes(errcode) + rest, from), shard)
            == if errcode == 0 then Ok((rest, StorageInfo(from, shard)))
               else if ValidUtf8(rest) then Err(ServerError(errcode, rest))
               else Err(InvalidUtf8)
  {
    DecodeU32OfU32Bytes(errcode, rest);
    TakeBytesOfAppend(rest, []);
    assert rest + [] == rest;
  }

  /** A payload too short for an error code fails: empty, without one;
      one to three bytes, as a read past the end. */
  lemma {:induction false} CheckReplyShortPayload(payload: seq<byte>, from: Origin, shard: int)
    requires |payload| < 4
    ensures CheckReply(Reply(payload, from), shard) == if |payload| == 0 then Err(ErrcodeOmitted) else Err(Truncated)
  {
  }

  /** Prefixes decoded records with `done` on success. */
  function PrependRecords(done: seq<Record>, r: Result<seq<Record>>): Result<seq<Record>>
  {
    if r.Ok? then Ok(done + r.value) else r
  }

  /** Reads `count` records, each a response tuple decoded onto `defaults`.
      For an insert, reading stops after the first record. */
  function DecodeRecords(defaults: seq<Property>, s: seq<byte>, count: nat, si: StorageInfo, insert: bool): Result<seq<Record>>
    decreases count
  {
    if count == 0 then Ok([])
    else
      var t :- DecodeUnsafeTuple(s);
      var tuple :- DecodeOnto(defaults, t.0.data, t.0.cardinality);
      var record := Record(tuple, Some(si));
      if insert then Ok([record])
      else PrependRecords([record], DecodeRecords(defaults, t.1, count - 1, si, insert))
  }

  /** What `processResponse(of:wantResult:)` gives for a message with code
      `code` sent to `shard`: the checks, then, when a result is wanted,
      the count and the records; without a wanted result, no records. */
  function ResponseRecords(defaults: seq<Property>, code: int, shard: int, response: Response, wantResult: bool): Result<seq<Record>>
  {
    var answer :- CheckReply(response, shard);
    if !wantResult then Ok([])
    else
      var count :- DecodeU32(answer.0);
      DecodeRecords(defaults, count.1, count.0, answer.1, code == Code(Insert))
  }

  /** At most `count` records are read, and at most one for an insert. */
  lemma {:induction false} DecodeRecordsBound(defaults: seq<Property>, s: seq<byte>, count: nat, si: StorageInfo, insert: bool)
    requires DecodeRecords(defaults, s, count, si, insert).Ok?
    ensures |DecodeRecords(defaults, s, count, si, insert).value| <= count
    ensures insert ==> |DecodeRecords(defaults, s, count, si, insert).value| <= 1
    decreases count
  {
    if count > 0 && !insert {
      var t := DecodeUnsafeTuple(s).value;
      var tuple := DecodeOnto(defaults, t.0.data, t.0.cardinality).value;
      var more := DecodeRecords(defaults, t.1, count - 1, si, insert);
      DecodeRecordsBound(defaults, t.1, count - 1, si, insert);
      assert DecodeRecords(defaults, s, count, si, insert).value == [Record(tuple, Some(si))] + more.value;
    }
  }

  /** Records that carry the storage info `si` of a reply and have the
      schema of the default value. */
  predicate FromReply(records: seq<Record>, defaults: seq<Property>, si: StorageInfo)
  {
    forall i :: 0 <= i < |records| ==>
      records[i].storageInfo == Some(si) && PropertiesInfo(records[i].tuple) == PropertiesInfo(defaults)
  }

  /** Every record read carries the storage info of the reply and has the
      schema of the default value. */
  lemma {:induction false} DecodeRecordsProvenance(defaults: seq<Property>, s: seq<byte>, count: nat, si: StorageInfo, insert: bool)
    requires DecodeRecords(defaults, s, count, si, insert).Ok?
    ensures FromReply(DecodeRecords(defaults, s, count, si, insert).value, defaults, si)
    decreases count
  {
    if count > 0 {
      var t := DecodeUnsafeTuple(s).value;
      var tuple := DecodeOnto(defaults, t.0.data, t.0.cardinality).value;
      var record := Record(tuple, Some(si));
      if !insert {
        var more := DecodeRecords(defaults, t.1, count - 1, si, insert).value;
        DecodeRecordsProvenance(defaults, t.1, count - 1, si, insert);
        FromReplyCons(record, more, defaults, si);
        assert DecodeRecords(defaults, s, count, si, insert).value == [record] + more;
      }
    }
  }

  /** A transport error is passed on to the caller unchanged, whether or
      not a result is wanted. */
  lemma TransportErrorPassedOn(defaults: seq<Property>, code: int, shard: int, cause: TransportError, wantResult: bool)
    ensures CheckReply(Failed(cause), shard) == Err(Transport(cause))
    ensures ResponseRecords(defaults, code, shard, Failed(cause), wantResult) == Err(Transport(cause))
  {
  }

  /** Every record of a response carries the storage info of that reply,
      the replica that answered and the shard asked, and has the schema of
      the default value. */
  lemma ResponseProvenance(defaults: seq<Property>, code: int, shard: int, response: Response, wantResult: bool)
    requires ResponseRecords(defaults, code, shard, response, wantResult).Ok?
    ensures response.Reply?
    ensures FromReply(ResponseRecords(defaults, code, shard, response, wantResult).value, defaults, StorageInfo(response.from, shard))
  {
    var answer := CheckReply(response, shard).value;
    if wantResult {
      var count := DecodeU32(answer.0).value;
      DecodeRecordsProvenance(defaults, count.1, count.0, answer.1, code == Code(Insert));
    }
  }

  lemma FromReplyCons(r: Record, more: seq<Record>, defaults: seq<Property>, si: StorageInfo)
    requires r.storageInfo == Some(si) && PropertiesInfo(r.tuple) == PropertiesInfo(defaults)
    requires FromReply(more, defaults, si)
    ensures FromReply([r] + more, defaults, si)
  {
    assert forall i :: 1 <= i < |more| + 1 ==> ([r] + more)[i] == more[i - 1];
  }

  /** A successful reply without a wanted result gives no records, whatever
      follows the error code. */
  lemma {:induction false} NoResultWanted(defaults: seq<Property>, code: int, shard: int, rest: seq<byte>, from: Origin)
    ensures ResponseRecords(defaults, code, shard, Reply(U32Bytes(0) + rest, from), false) == Ok([])
  {
    CheckReplyOfErrcode(0, rest, from, shard);
  }

  /** A reply with an error code fails with that code whether or not a
      result is wanted. */
  lemma {:induction false} ServerErrorReported(defaults: seq<Property>, code: int, shard: int, errcode: u32, message: seq<byte>, from: Origin, wantResult: bool)
    requires errcode != 0 && ValidUtf8(message)
    ensures ResponseRecords(defaults, code, shard, Reply(U32Bytes(errcode) + message, from), wantResult) == Err(ServerError(errcode, message))
  {
    CheckReplyOfErrcode(errcode, message, from, shard);
  }

  // ---------------------------------------------------------------------
  // The server's side of a reply

  /** A tuple the server can send for a record type with default value
      `defaults`: same schema, and a body whose size fits a u32. */
  predicate Sendable(defaults: seq<Property>, t: seq<Property>)
  {
    PropertiesInfo(t) == PropertiesInfo(defaults) && |FieldsBytes(Fields(t))| < 0x1_0000_0000 && |Fields(t)| < 0x1_0000_0000
  }

  /** How the server sends a tuple in a reply. */
  function TupleReplyBytes(t: seq<Property>): seq<byte>
    requires |FieldsBytes(Fields(t))| < 0x1_0000_0000 && |Fields(t)| < 0x1_0000_0000
  {
    ResponseTupleBytes(UnsafeTuple(|Fields(t)|, FieldsBytes(Fields(t))))
  }

  /** A tuple sent by the server is read back as itself. */
  lemma {:induction false} DecodeTupleReply(defaults: seq<Property>, t: seq<Property>, rest: seq<byte>)
    requires Sendable(defaults, t)
    ensures DecodeUnsafeTuple(TupleReplyBytes(t) + rest) == Ok((UnsafeTuple(|Fields(t)|, FieldsBytes(Fields(t))), rest))
    ensures DecodeOnto(defaults, FieldsBytes(Fields(t)), |Fields(t)|) == Ok(t)
  {
    DecodeUnsafeTupleOfResponseTupleBytes(UnsafeTuple(|Fields(t)|, FieldsBytes(Fields(t))), rest);
    DecodeOntoOfFieldsBytes(defaults, t, []);
    assert FieldsBytes(Fields(t)) + [] == FieldsBytes(Fields(t));
  }

  predicate AllSendable(defaults: seq<Property>, ts: seq<seq<Property>>)
  {
    forall i :: 0 <= i < |ts| ==> Sendable(defaults, ts[i])
  }

  /** The tuples of a reply, one after the other. */
  function TuplesReplyBytes(ts: seq<seq<Property>>): seq<byte>
    requires forall i :: 0 <= i < |ts| ==> |FieldsBytes(Fields(ts[i]))| < 0x1_0000_0000 && |Fields(ts[i])| < 0x1_0000_0000
  {
    if ts == [] then [] else TupleReplyBytes(ts[0]) + TuplesReplyBytes(ts[1..])
  }

  /** The records of tuples read from a reply with storage info `si`. */
  function RecordsOf(ts: seq<seq<Property>>, si: StorageInfo): (rs: seq<Record>)
    ensures |rs| == |ts|
  {
    if ts == [] then [] else [Record(ts[0], Some(si))] + RecordsOf(ts[1..], si)
  }

  /** Tuples sent one after the other are read back, in order, as records. */
  lemma {:induction false} DecodeRecordsOfTuples(defaults: seq<Property>, ts: seq<seq<Property>>, si: StorageInfo, rest: seq<byte>)
    requires AllSendable(defaults, ts)
    ensures DecodeRecords(defaults, TuplesReplyBytes(ts) + rest, |ts|, si, false) == Ok(RecordsOf(ts, si))
  {
    if ts == [] {
    } else {
      assert AllSendable(defaults, ts[1..]) by {
        forall i | 0 <= i < |ts[1..]|
          ensures Sendable(defaults, ts[1..][i])
        {
          assert ts[1..][i] == ts[i + 1];
        }
      }
      DecodeRecordsOfTuples(defaults, ts[1..], si, rest);
      DecodeRecordsCons(defaults, ts[0], ts[1..], si, rest);
      assert [ts[0]] + ts[1..] == ts;
    }
  }

  /** The step of `DecodeRecordsOfTuples`: a tuple, then the others. */
  lemma {:induction false} DecodeRecordsCons(defaults: seq<Property>, t: seq<Property>, others: seq<seq<Property>>, si: StorageInfo, rest: seq<byte>)
    requires Sendable(defaults, t) && AllSendable(defaults, others)
    requires DecodeRecords(defaults, TuplesReplyBytes(others) + rest, |others|, si, false) == Ok(RecordsOf(others, si))
    ensures AllSendable(defaults, [t] + others)
    ensures DecodeRecords(defaults, TuplesReplyBytes([t] + others) + rest, |others| + 1, si, false) == Ok(RecordsOf([t] + others, si))
  {
    var ts := [t] + others;
    assert ts[0] == t && ts[1..] == others;
    Rebracket(TupleReplyBytes(t), TuplesReplyBytes(others), rest);
    DecodeTupleReply(defaults, t, TuplesReplyBytes(others) + rest);
  }

  /** A successful select reply: error code 0, the count, then the tuples. */
  function SelectReplyBytes(ts: seq<seq<Property>>): seq<byte>
    requires |ts| < 0x1_0000_0000
    requires forall i :: 0 <= i < |ts| ==> |FieldsBytes(Fields(ts[i]))| < 0x1_0000_0000 && |Fields(ts[i])| < 0x1_0000_0000
  {
    U32Bytes(0) + U32Bytes(|ts|) + TuplesReplyBytes(ts)
  }

  /** The records of a successful select reply are its tuples, in order,
      each with the replica that answered and the shard asked. */
  lemma {:induction false} SelectReplyRoundTrip(defaults: seq<Property>, ts: seq<seq<Property>>, from: Origin, shard: int)
    requires |ts| < 0x1_0000_0000 && AllSendable(defaults, ts)
    ensures ResponseRecords(defaults, Code(Select), shard, Reply(SelectReplyBytes(ts), from), true)
            == Ok(RecordsOf(ts, StorageInfo(from, shard)))
  {
    var body := TuplesReplyBytes(ts);
    Rebracket(U32Bytes(0), U32Bytes(|ts|), body);
    CheckReplyOfErrcode(0, U32Bytes(|ts|) + body, from, shard);
    DecodeU32OfU32Bytes(|ts|, body);
    DecodeRecordsOfTuples(defaults, ts, StorageInfo(from, shard), []);
    assert body + [] == body;
  }

  /** A successful insert reply with a result: error code 0, the number of
      touched tuples, then the tuple as stored. The record is that tuple,
      whatever the count, as long as it is not 0; anything after the tuple
      is not read. */
  lemma {:induction false} InsertReplyRoundTrip(defaults: seq<Property>, touched: u32, t: seq<Property>, rest: seq<byte>, from: Origin, shard: int)
    requires touched > 0 && Sendable(defaults, t)
    ensures ResponseRecords(defaults, Code(Insert), shard, Reply(U32Bytes(0) + U32Bytes(touched) + TupleReplyBytes(t) + rest, from), true)
            == Ok([Record(t, Some(StorageInfo(from, shard)))])
  {
    var body := TupleReplyBytes(t) + rest;
    Rebracket(U32Bytes(touched), TupleReplyBytes(t), rest);
    Rebracket(U32Bytes(0), U32Bytes(touched), body);
    Rebracket(U32Bytes(0) + U32Bytes(touched), TupleReplyBytes(t), rest);
    CheckReplyOfErrcode(0, U32Bytes(touched) + body, from, shard);
    DecodeU32OfU32Bytes(touched, body);
    DecodeTupleReply(defaults, t, rest);
  }

  // ---------------------------------------------------------------------
  // The reading loop

  lemma PrependRecordsNothing(r: Result<seq<Record>>)
    ensures PrependRecords([], r) == r
  {
    if r.Ok? {
      assert [] + r.value == r.value;
    }
  }

  lemma PrependRecordsOne(done: seq<Record>, x: Record, r: Result<seq<Record>>)
    ensures PrependRecords(done + [x], r) == PrependRecords(done, PrependRecords([x], r))
  {
    if r.Ok? {
      assert done + [x] + r.value == done + ([x] + r.value);
    }
  }

  /** The private `processResponse(of:wantResult:)` up to the call of its
      closure: the checks of the response, then a reader just past the
      error code and the storage info the closure is handed. */
  method OpenReply(m: Message, response: Response) returns (r: Result<(Reader, StorageInfo)>)
    ensures r.Ok? ==> fresh(r.value.0) && CheckReply(response, m.options.shard) == Ok((r.value.0.rest, r.value.1))
    ensures r.Err? ==> CheckReply(response, m.options.shard) == Err(r.error)
  {
    var payload, from;
    match response {
      case Failed(cause) =>
        return Err(Transport(cause));
      case Reply(p, f) =>
        payload, from := p, f;
    }
    if |payload| == 0 {
      return Err(ErrcodeOmitted);
    }
    var reader := new Reader(payload);
    var errcode := reader.ReadU32();
    if errcode.Err? {
      return Err(errcode.error);
    }
    if errcode.value != 0 {
      var message := reader.ReadText(|reader.rest|);
      if message.Err? {
        return Err(message.error);
      }
      return Err(ServerError(errcode.value, message.value));
    }
    return Ok((reader, StorageInfo(from, m.options.shard)));
  }

  /** `processResponse(of:wantResult:)` on a message with the given response:
      the checks, then the count and one record per tuple, each decoded
      onto the default value; for an insert, the loop stops after the first
      record. */
  method ProcessResponse(defaults: seq<Property>, m: Message, response: Response, wantResult: bool) returns (r: Result<seq<Record>>)
    ensures r == ResponseRecords(defaults, m.code, m.options.shard, response, wantResult)
  {
    var answer := OpenReply(m, response);
    if answer.Err? {
      return Err(answer.error);
    }
    var (reader, si) := answer.value;
    if !wantResult {
      return Ok([]);
    }
    var count := reader.ReadU32();
    if count.Err? {
      return Err(count.error);
    }
    r := ReadRecords(defaults, reader, count.value, si, m.code == Code(Insert));
  }

  /** The record loop of `processResponse(of:wantResult:)`. */
  method ReadRecords(defaults: seq<Property>, reader: Reader, count: nat, si: StorageInfo, insert: bool) returns (r: Result<seq<Record>>)
    modifies reader
    ensures r == DecodeRecords(defaults, old(reader.rest), count, si, insert)
  {
    var result: seq<Record> := [];
    PrependRecordsNothing(DecodeRecords(defaults, reader.rest, count, si, insert));
    for i := 0 to count
      invariant insert ==> result == []
      invariant PrependRecords(result, DecodeRecords(defaults, reader.rest, count - i, si, insert))
                == DecodeRecords(defaults, old(reader.rest), count, si, insert)
    {
      ghost var before := reader.rest;
      var t := ReadUnsafeTuple(reader);
      if t.Err? {
        return Err(t.error);
      }
      var tuple := InitFromUnsafe(defaults, t.value);
      if tuple.Err? {
        return Err(tuple.error);
      }
      var record := Record(tuple.value, Some(si));
      if insert {
        assert DecodeRecords(defaults, before, count - i, si, insert) == Ok([record]);
        assert [] + [record] == [record];
        return Ok([record]);
      }
      ghost var tail := DecodeRecords(defaults, reader.rest, count - i - 1, si, insert);
      assert DecodeRecords(defaults, before, count - i, si, insert) == PrependRecords([record], tail);
      PrependRecordsOne(result, record, tail);
      result := result + [record];
    }
    assert result + [] == result;
    return Ok(result);
  }

  // ---------------------------------------------------------------------
  // Several messages

  /** The records of several outcomes, in order; the first failure among
      them is the outcome of all. */
  function Gather(outcomes: seq<Result<seq<Record>>>): Result<seq<Record>>
  {
    if outcomes == [] then Ok([])
    else if outcomes[0].Err? then outcomes[0]
    else PrependRecords(outcomes[0].value, Gather(outcomes[1..]))
  }

  /** All outcomes succeed exactly when their gathering does. */
  lemma {:induction false} GatherOk(outcomes: seq<Result<seq<Record>>>)
    ensures Gather(outcomes).Ok? <==> forall i :: 0 <= i < |outcomes| ==> outcomes[i].Ok?
  {
    if outcomes != [] {
      GatherOk(outcomes[1..]);
      assert forall i :: 1 <= i < |outcomes| ==> outcomes[1..][i - 1] == outcomes[i];
    }
  }

  /** The first failure is the failure of all. */
  lemma {:induction false} GatherFirstError(outcomes: seq<Result<seq<Record>>>, i: nat)
    requires i < |outcomes| && outcomes[i].Err?
    requires forall j :: 0 <= j < i ==> outcomes[j].Ok?
    ensures Gather(outcomes) == outcomes[i]
  {
    if i > 0 {
      GatherFirstError(outcomes[1..], i - 1);
    }
  }

  /** One more outcome after a successful gathering: its records are added
      at the end, or its failure is the outcome. */
  lemma {:induction false} GatherSnoc(outcomes: seq<Result<seq<Record>>>, x: Result<seq<Record>>)
    requires Gather(outcomes).Ok?
    ensures Gather(outcomes + [x]) == PrependRecords(Gather(outcomes).value, x)
  {
    if outcomes == [] {
      assert [] + [x] == [x] && [x][1..] == [];
      if x.Ok? {
        assert x.value + [] == x.value && [] + x.value == x.value;
      }
    } else {
      var head, tail := outcomes[0], outcomes[1..];
      assert (outcomes + [x])[0] == head && (outcomes + [x])[1..] == tail + [x];
      GatherSnoc(tail, x);
      if x.Ok? {
        assert head.value + (Gather(tail).value + x.value) == head.value + Gather(tail).value + x.value;
      }
    }
  }

  /** Gathering one outcome further along a list. */
  lemma GatherPrefixStep(outcomes: seq<Result<seq<Record>>>, i: nat, done: seq<Record>)
    requires i < |outcomes| && Gather(outcomes[..i]) == Ok(done)
    ensures outcomes[i].Err? ==> Gather(outcomes) == outcomes[i]
    ensures outcomes[i].Ok? ==> Gather(outcomes[..i + 1]) == Ok(done + outcomes[i].value)
  {
    if outcomes[i].Err? {
      GatherOk(outcomes[..i]);
      assert forall j :: 0 <= j < i ==> outcomes[..i][j] == outcomes[j];
      GatherFirstError(outcomes, i);
    } else {
      assert outcomes[..i + 1] == outcomes[..i] + [outcomes[i]];
      GatherSnoc(outcomes[..i], outcomes[i]);
    }
  }

  /** What each message's response gives, in message order. */
  ghost function Outcomes(defaults: seq<Property>, messages: seq<Message>, responses: seq<Response>, wantResult: bool): (rs: seq<Result<seq<Record>>>)
    requires |responses| == |messages|
    reads set m | m in messages :: m.options
    ensures |rs| == |messages|
    ensures forall i :: 0 <= i < |messages| ==>
              rs[i] == ResponseRecords(defaults, messages[i].code, messages[i].options.shard, responses[i], wantResult)
    decreases |messages|
  {
    if messages == [] then []
    else
      [ResponseRecords(defaults, messages[0].code, messages[0].options.shard, responses[0], wantResult)] +
      Outcomes(defaults, messages[1..], responses[1..], wantResult)
  }

  /** `processResponses(of:wantResult:)`: the records of each message's
      response, in message order, or the first failure. */
  method ProcessResponses(defaults: seq<Property>, messages: seq<Message>, responses: seq<Response>, wantResult: bool) returns (r: Result<seq<Record>>)
    requires |responses| == |messages|
    ensures r == Gather(Outcomes(defaults, messages, responses, wantResult))
  {
    ghost var outcomes := Outcomes(defaults, messages, responses, wantResult);
    var result: seq<Record> := [];
    for i := 0 to |messages|
      invariant Gather(outcomes[..i]) == Ok(result)
    {
      var records := ProcessResponse(defaults, messages[i], responses[i], wantResult);
      GatherPrefixStep(outcomes, i, result);
      if records.Err? {
        return records;
      }
      result := result + records.value;
    }
    assert outcomes[..|messages|] == outcomes;
    return Ok(result);
  }

  /** `byKey` holds, for each key some record has under the index, the last
      record with that key. */
  ghost predicate KeepsLast(byKey: map<Key, Record>, records: seq<Record>, ix: Index)
  {
    SameKeys(byKey, records, ix) && LastWins(byKey, records, ix)
  }

  /** The keys of `byKey` are the keys of the records. */
  ghost predicate SameKeys(byKey: map<Key, Record>, records: seq<Record>, ix: Index)
  {
    forall k :: k in byKey <==> exists i :: 0 <= i < |records| && ExtractKey(ix, records[i].tuple) == k
  }

  /** Each key of `byKey` maps to a record with that key that no later
      record shares. */
  ghost predicate LastWins(byKey: map<Key, Record>, records: seq<Record>, ix: Index)
  {
    forall k :: k in byKey ==>
      exists i :: 0 <= i < |records| && records[i] == byKey[k] && ExtractKey(ix, records[i].tuple) == k &&
        forall j :: i < j < |records| ==> ExtractKey(ix, records[j].tuple) != k
  }

  /** There is only one such map: the last record wins. */
  lemma {:induction false} KeepsLastUnique(a: map<Key, Record>, b: map<Key, Record>, records: seq<Record>, ix: Index)
    requires KeepsLast(a, records, ix) && KeepsLast(b, records, ix)
    ensures a == b
  {
    forall k | k in a
      ensures k in b && a[k] == b[k]
    {
      var i :| 0 <= i < |records| && records[i] == a[k] && ExtractKey(ix, records[i].tuple) == k &&
                forall j :: i < j < |records| ==> ExtractKey(ix, records[j].tuple) != k;
      var i' :| 0 <= i' < |records| && records[i'] == b[k] && ExtractKey(ix, records[i'].tuple) == k &&
                 forall j :: i' < j < |records| ==> ExtractKey(ix, records[j].tuple) != k;
      assert i == i';
    }
    assert a.Keys == b.Keys;
  }

  lemma KeepsLastSnoc(byKey: map<Key, Record>, records: seq<Record>, r: Record, ix: Index)
    requires KeepsLast(byKey, records, ix)
    ensures KeepsLast(byKey[ExtractKey(ix, r.tuple) := r], records + [r], ix)
  {
    SameKeysSnoc(byKey, records, r, ix);
    LastWinsSnoc(byKey, records, r, ix);
  }

  lemma SameKeysSnoc(byKey: map<Key, Record>, records: seq<Record>, r: Record, ix: Index)
    requires SameKeys(byKey, records, ix)
    ensures SameKeys(byKey[ExtractKey(ix, r.tuple) := r], records + [r], ix)
  {
    var k0 := ExtractKey(ix, r.tuple);
    var after := byKey[k0 := r];
    var rs := records + [r];
    forall k
      ensures k in after <==> exists i :: 0 <= i < |rs| && ExtractKey(ix, rs[i].tuple) == k
    {
      if k == k0 {
        assert ExtractKey(ix, rs[|records|].tuple) == k;
      } else if k in byKey {
        var i :| 0 <= i < |records| && ExtractKey(ix, records[i].tuple) == k;
        assert ExtractKey(ix, rs[i].tuple) == k;
      } else {
        forall i | 0 <= i < |rs|
          ensures ExtractKey(ix, rs[i].tuple) != k
        {
          if i < |records| {
            assert rs[i] == records[i];
          }
        }
      }
    }
  }

  lemma LastWinsSnoc(byKey: map<Key, Record>, records: seq<Record>, r: Record, ix: Index)
    requires LastWins(byKey, records, ix)
    ensures LastWins(byKey[ExtractKey(ix, r.tuple) := r], records + [r], ix)
  {
    var k0 := ExtractKey(ix, r.tuple);
    var after := byKey[k0 := r];
    var rs := records + [r];
    forall k | k in after
      ensures exists i :: 0 <= i < |rs| && rs[i] == after[k] && ExtractKey(ix, rs[i].tuple) == k &&
                forall j :: i < j < |rs| ==> ExtractKey(ix, rs[j].tuple) != k
    {
      if k == k0 {
        assert rs[|records|] == r;
      } else {
        var i :| 0 <= i < |records| && records[i] == byKey[k] && ExtractKey(ix, records[i].tuple) == k &&
                  forall j :: i < j < |records| ==> ExtractKey(ix, records[j].tuple) != k;
        assert rs[i] == after[k];
        assert forall j :: i < j < |rs| ==> rs[j] == if j < |records| then records[j] else r;
      }
    }
  }

  /** The grouping loop of `processResponses(of:groupBy:wantResult:)`:
      each record is stored under its key, so the last one stays. */
  method GroupBy(records: seq<Record>, ix: Index) returns (byKey: map<Key, Record>)
    ensures KeepsLast(byKey, records, ix)
  {
    byKey := map[];
    for i := 0 to |records|
      invariant KeepsLast(byKey, records[..i], ix)
    {
      assert records[..i + 1] == records[..i] + [records[i]];
      KeepsLastSnoc(byKey, records[..i], records[i], ix);
      byKey := byKey[ExtractKey(ix, records[i].tuple) := records[i]];
    }
    assert records[..|records|] == records;
  }

  /** `processResponses(of:groupBy:wantResult:)`: the records of all the
      responses, by key, the last record of a key winning; or the first
      failure. */
  method ProcessResponsesGroupBy(defaults: seq<Property>, messages: seq<Message>, responses: seq<Response>, ix: Index, wantResult: bool)
    returns (r: Result<map<Key, Record>>)
    requires |responses| == |messages|
    ensures Gather(Outcomes(defaults, messages, responses, wantResult)).Err? ==>
              r == Err(Gather(Outcomes(defaults, messages, responses, wantResult)).error)
    ensures Gather(Outcomes(defaults, messages, responses, wantResult)).Ok? ==>
              r.Ok? && KeepsLast(r.value, Gather(Outcomes(defaults, messages, responses, wantResult)).value, ix)
  {
    var records := ProcessResponses(defaults, messages, responses, wantResult);
    if records.Err? {
      return Err(records.error);
    }
    var byKey := GroupBy(records.value, ix);
    return Ok(byKey);
  }
}
