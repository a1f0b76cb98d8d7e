/** The requests a record type sends: select, insert, delete and update.
    Each payload opens with u32 words (the namespace first), followed by
    keys, a tuple or update operations. The server's reading of each
    payload is given as a partner, and each request is shown to be read
    back as what the client meant. */
module Requests {
  import opened Common
  import opened Wire
  import opened FieldCodec
  import opened TupleLayout
  import opened KeyCodec
  import opened UpdateOps
  import opened OptionsOverlay

  /** What a record type's messages are built with: the transport's
      defaults for new messages and the server's temporary-error bit. */
  datatype Cluster = Cluster(base: Options, temporaryFlag: u32)

  /** The static side of a record type: its namespace, its cluster, its
      primary key, its default value and whether it is `Sharded`. */
  datatype RecordType = RecordType(namespace: u32, cluster: Cluster, primaryKey: Index, defaults: seq<Property>, sharded: bool)

  /** The defaults of `selectRequest`'s `offset` and `limit`. */
  const DefaultOffset: u32 := 0
  const DefaultLimit: u32 := 0xFFFF_FFFF

  /** The options a fresh message of type `t` of this record type has. */
  function FreshOptions(rt: RecordType, t: MessageType): Options
  {
    Defaults(t, rt.cluster.base, rt.cluster.temporaryFlag)
  }

  // ---------------------------------------------------------------------
  // Header words

  /** The u32 words of a header, in order. */
  function WordsBytes(ws: seq<u32>): seq<byte>
  {
    if ws == [] then [] else U32Bytes(ws[0]) + WordsBytes(ws[1..])
  }

  /** Reads `n` u32 words. */
  function DecodeWords(n: nat, s: seq<byte>): (r: Result<(seq<u32>, seq<byte>)>)
    ensures r.Ok? ==> |r.value.0| == n && |r.value.1| + 4 * n == |s|
  {
    if n == 0 then Ok(([], s))
    else
      var w :- DecodeU32(s);
      var more :- DecodeWords(n - 1, w.1);
      Ok(([w.0] + more.0, more.1))
  }

  lemma {:induction false} DecodeWordsOfWordsBytes(ws: seq<u32>, rest: seq<byte>)
    ensures DecodeWords(|ws|, WordsBytes(ws) + rest) == Ok((ws, rest))
  {
    if ws == [] {
      assert [] + rest == rest;
    } else {
      Rebracket(U32Bytes(ws[0]), WordsBytes(ws[1..]), rest);
      DecodeU32OfU32Bytes(ws[0], WordsBytes(ws[1..]) + rest);
      DecodeWordsOfWordsBytes(ws[1..], rest);
      assert [ws[0]] + ws[1..] == ws;
    }
  }

  /** A two-word header is the two words appended one after the other. */
  lemma {:induction false} HeaderLayout2(a: u32, b: u32)
    ensures WordsBytes([a, b]) == U32Bytes(a) + U32Bytes(b)
  {
    assert [a, b][1..] == [b] && [b][1..] == [];
    assert WordsBytes([b]) == U32Bytes(b) + WordsBytes([]);
    assert U32Bytes(b) + [] == U32Bytes(b);
  }

  /** A five-word header is the five words appended one after the other. */
  lemma {:induction false} HeaderLayout5(a: u32, b: u32, c: u32, d: u32, e: u32)
    ensures WordsBytes([a, b, c, d, e]) == U32Bytes(a) + U32Bytes(b) + U32Bytes(c) + U32Bytes(d) + U32Bytes(e)
  {
    assert [a, b, c, d, e][1..] == [b, c, d, e];
    assert [b, c, d, e][1..] == [c, d, e];
    HeaderLayout3(c, d, e);
    var A, B, C, D, E := U32Bytes(a), U32Bytes(b), U32Bytes(c), U32Bytes(d), U32Bytes(e);
    Rebracket(B, C + D, E);
    Rebracket(B, C, D);
    Rebracket(A, B + C + D, E);
    Rebracket(A, B + C, D);
    Rebracket(A, B, C);
  }

  lemma {:induction false} HeaderLayout3(c: u32, d: u32, e: u32)
    ensures WordsBytes([c, d, e]) == U32Bytes(c) + U32Bytes(d) + U32Bytes(e)
  {
    assert [c, d, e][1..] == [d, e];
    HeaderLayout2(d, e);
    Rebracket(U32Bytes(c), U32Bytes(d), U32Bytes(e));
  }

  /** The flags word of a delete or update, which carries the want-result
      bit and nothing else. */
  function WantOf(flags: u32): (r: Option<bool>)
  {
    if flags == 0 then Some(false) else if flags == WantResult then Some(true) else None
  }

  lemma {:induction false} WantOfRequestFlags(wantResult: bool)
    ensures WantOf(RequestFlags(0, wantResult)) == Some(wantResult)
  {
    assert BitOr(0, WantResult) == 1 by {
      assert (0 as bv32) | (1 as bv32) == 1;
    }
  }

  // ---------------------------------------------------------------------
  // Keys of a select

  /** The encodings of `keys`, one after the other. */
  function KeysBytes(keys: seq<Key>): seq<byte>
  {
    if keys == [] then [] else KeyBytes(keys[0]) + KeysBytes(keys[1..])
  }

  lemma {:induction false} KeysBytesSnoc(keys: seq<Key>, k: Key)
    ensures KeysBytes(keys + [k]) == KeysBytes(keys) + KeyBytes(k)
  {
    if keys == [] {
      assert [] + [k] == [k] && [k][1..] == [];
      assert KeyBytes(k) + [] == KeyBytes(k);
    } else {
      assert (keys + [k])[0] == keys[0] && (keys + [k])[1..] == keys[1..] + [k];
      KeysBytesSnoc(keys[1..], k);
      Rebracket(KeyBytes(keys[0]), KeysBytes(keys[1..]), KeyBytes(k));
    }
  }

  /** Every key has components of the given kinds, the kinds of the index's
      fields. */
  predicate KeysOfKinds(keys: seq<Key>, kinds: seq<FieldKind>)
  {
    forall i :: 0 <= i < |keys| ==> KindsOf(Components(keys[i])) == kinds
  }

  /** The server's reading of `n` keys of an index with field kinds `kinds`. */
  function ParseKeys(kinds: seq<FieldKind>, n: nat, s: seq<byte>): (r: Option<(seq<Key>, seq<byte>)>)
    ensures r.Some? ==> |r.value.0| == n
  {
    if n == 0 then Some(([], s))
    else
      match ParseKey(kinds, s)
      case None => None
      case Some((k, s1)) =>
        match ParseKeys(kinds, n - 1, s1)
        case None => None
        case Some((more, rest)) => Some(([k] + more, rest))
  }

  lemma {:induction false} ParseKeysOfKeysBytes(kinds: seq<FieldKind>, keys: seq<Key>, rest: seq<byte>)
    requires KeysOfKinds(keys, kinds)
    ensures ParseKeys(kinds, |keys|, KeysBytes(keys) + rest) == Some((keys, rest))
  {
    if keys == [] {
      assert [] + rest == rest;
    } else {
      assert KeysOfKinds(keys[1..], kinds) by {
        forall i | 0 <= i < |keys[1..]|
          ensures KindsOf(Components(keys[1..][i])) == kinds
        {
          assert keys[1..][i] == keys[i + 1];
        }
      }
      ParseKeysOfKeysBytes(kinds, keys[1..], rest);
      ParseKeysCons(kinds, keys[0], keys[1..], rest);
      assert [keys[0]] + keys[1..] == keys;
    }
  }

  /** The step of `ParseKeysOfKeysBytes`: a key, then the others. */
  lemma {:induction false} ParseKeysCons(kinds: seq<FieldKind>, k: Key, others: seq<Key>, rest: seq<byte>)
    requires KindsOf(Components(k)) == kinds
    requires ParseKeys(kinds, |others|, KeysBytes(others) + rest) == Some((others, rest))
    ensures ParseKeys(kinds, |[k] + others|, KeysBytes([k] + others) + rest) == Some(([k] + others, rest))
  {
    var tail := KeysBytes(others) + rest;
    KeysBytesCons(k, others);
    Rebracket(KeyBytes(k), KeysBytes(others), rest);
    ParseKeyOfKeyBytes(k, tail);
    ParseKeysStep(kinds, k, others, KeyBytes(k) + tail, tail, rest);
  }

  lemma KeysBytesCons(k: Key, others: seq<Key>)
    ensures KeysBytes([k] + others) == KeyBytes(k) + KeysBytes(others)
  {
    var keys := [k] + others;
    assert keys[0] == k && keys[1..] == others;
  }

  /** Reading one more key: the key, then the others after it. */
  lemma ParseKeysStep(kinds: seq<FieldKind>, k: Key, others: seq<Key>, s: seq<byte>, tail: seq<byte>, rest: seq<byte>)
    requires ParseKey(kinds, s) == Some((k, tail))
    requires ParseKeys(kinds, |others|, tail) == Some((others, rest))
    ensures ParseKeys(kinds, |[k] + others|, s) == Some(([k] + others, rest))
  {
  }

  // ---------------------------------------------------------------------
  // Payloads and their readings

  /** `selectRequest`: namespace, index number, offset, limit and key count
      as u32 words, then each key. */
  function SelectPayload(namespace: u32, index: u32, offset: u32, limit: u32, keys: seq<Key>): seq<byte>
    requires |keys| < 0x1_0000_0000
  {
    WordsBytes([namespace, index, offset, limit, |keys|]) + KeysBytes(keys)
  }

  datatype SelectCall = SelectCall(namespace: u32, index: u32, offset: u32, limit: u32, keys: seq<Key>)

  /** The server's reading of a select on an index with field kinds
      `kinds`: the whole payload must be consumed. */
  function ParseSelect(kinds: seq<FieldKind>, s: seq<byte>): (r: Option<SelectCall>)
  {
    match DecodeWords(5, s)
    case Err(_) => None
    case Ok((ws, after)) =>
      match ParseKeys(kinds, ws[4], after)
      case None => None
      case Some((keys, tail)) =>
        if tail != [] then None else Some(SelectCall(ws[0], ws[1], ws[2], ws[3], keys))
  }

  lemma {:induction false} ParseSelectOfSelectPayload(kinds: seq<FieldKind>, namespace: u32, index: u32, offset: u32, limit: u32, keys: seq<Key>)
    requires |keys| < 0x1_0000_0000 && KeysOfKinds(keys, kinds)
    ensures ParseSelect(kinds, SelectPayload(namespace, index, offset, limit, keys)) == Some(SelectCall(namespace, index, offset, limit, keys))
  {
    var ws := [namespace, index, offset, limit, |keys|];
    var body := KeysBytes(keys);
    DecodeWordsOfWordsBytes(ws, body);
    assert DecodeWords(5, SelectPayload(namespace, index, offset, limit, keys)) == Ok((ws, body));
    ParseKeysOfKeysBytes(kinds, keys, []);
    assert body + [] == body;
    assert ParseKeys(kinds, ws[4], body) == Some((keys, []));
  }

  /** `insertRequest`: namespace and flags as u32 words, then the tuple. */
  function InsertPayload(namespace: u32, flags: u32, t: seq<Property>): seq<byte>
    requires |Fields(t)| < 0x1_0000_0000
  {
    WordsBytes([namespace, flags, |Fields(t)|]) + FieldsBytes(Fields(t))
  }

  /** The insert payload as `insertRequest` appends it: the two words, then
      the tuple as `append(tuple:)` writes it. */
  lemma {:induction false} InsertPayloadLayout(namespace: u32, flags: u32, t: seq<Property>)
    requires |Fields(t)| < 0x1_0000_0000
    ensures InsertPayload(namespace, flags, t) == U32Bytes(namespace) + U32Bytes(flags) + U32Bytes(|Fields(t)|) + FieldsBytes(Fields(t))
  {
    HeaderLayout3(namespace, flags, |Fields(t)|);
  }

  datatype InsertCall = InsertCall(namespace: u32, action: InsertAction, wantResult: bool, fields: seq<Field>)

  /** The server's reading of an insert into a namespace whose fields have
      kinds `kinds`. */
  function ParseInsert(kinds: seq<FieldKind>, s: seq<byte>): (r: Option<InsertCall>)
    ensures r.Some? ==> KindsOf(r.value.fields) == kinds
  {
    match DecodeWords(3, s)
    case Err(_) => None
    case Ok((ws, after)) =>
      var (action, want) := SplitInsertFlags(ws[1]);
      if action.None? || ws[2] != |kinds| then None
      else match DecodeFields(kinds, after)
        case Err(_) => None
        case Ok((fs, tail)) =>
          if tail != [] then None else Some(InsertCall(ws[0], action.value, want, fs))
  }

  lemma {:induction false} ParseInsertOfInsertPayload(namespace: u32, action: InsertAction, wantResult: bool, t: seq<Property>)
    requires |Fields(t)| < 0x1_0000_0000
    ensures ParseInsert(KindsOf(Fields(t)), InsertPayload(namespace, RequestFlags(ActionBits(action), wantResult), t))
            == Some(InsertCall(namespace, action, wantResult, Fields(t)))
  {
    InsertFlagsDetermineActionAndWant(action, wantResult);
    ParseInsertOfFields(namespace, RequestFlags(ActionBits(action), wantResult), Fields(t));
  }

  lemma {:induction false} ParseInsertOfFields(namespace: u32, flags: u32, fs: seq<Field>)
    requires |fs| < 0x1_0000_0000 && SplitInsertFlags(flags).0.Some?
    ensures ParseInsert(KindsOf(fs), WordsBytes([namespace, flags, |fs|]) + FieldsBytes(fs))
            == Some(InsertCall(namespace, SplitInsertFlags(flags).0.value, SplitInsertFlags(flags).1, fs))
  {
    var body := FieldsBytes(fs);
    DecodeWordsOfWordsBytes([namespace, flags, |fs|], body);
    DecodeFieldsOfFieldsBytes(fs, []);
    assert body + [] == body;
    ParseInsertParts(KindsOf(fs), WordsBytes([namespace, flags, |fs|]) + body, namespace, flags, body, fs);
  }

  /** An insert read part by part. */
  lemma ParseInsertParts(kinds: seq<FieldKind>, s: seq<byte>, namespace: u32, flags: u32, after: seq<byte>, fs: seq<Field>)
    requires DecodeWords(3, s) == Ok(([namespace, flags, |kinds|], after)) && SplitInsertFlags(flags).0.Some?
    requires DecodeFields(kinds, after) == Ok((fs, []))
    ensures ParseInsert(kinds, s) == Some(InsertCall(namespace, SplitInsertFlags(flags).0.value, SplitInsertFlags(flags).1, fs))
  {
  }

  /** `deleteRequest`: namespace and flags as u32 words, then the key. */
  function DeletePayload(namespace: u32, flags: u32, key: Key): seq<byte>
  {
    WordsBytes([namespace, flags]) + KeyBytes(key)
  }

  /** The delete payload as `deleteRequest` appends it. */
  lemma {:induction false} DeletePayloadLayout(namespace: u32, flags: u32, key: Key)
    ensures DeletePayload(namespace, flags, key) == U32Bytes(namespace) + U32Bytes(flags) + KeyBytes(key)
  {
    HeaderLayout2(namespace, flags);
  }

  datatype DeleteCall = DeleteCall(namespace: u32, wantResult: bool, key: Key)

  /** The server's reading of a delete by a primary key with field kinds
      `kinds`. */
  function ParseDelete(kinds: seq<FieldKind>, s: seq<byte>): (r: Option<DeleteCall>)
    ensures r.Some? ==> KindsOf(Components(r.value.key)) == kinds
  {
    match DecodeWords(2, s)
    case Err(_) => None
    case Ok((ws, after)) =>
      match (WantOf(ws[1]), ParseKey(kinds, after))
      case (Some(want), Some((key, tail))) =>
        if tail != [] then None else Some(DeleteCall(ws[0], want, key))
      case _ => None
  }

  lemma {:induction false} ParseDeleteOfDeletePayload(namespace: u32, wantResult: bool, key: Key)
    ensures ParseDelete(KindsOf(Components(key)), DeletePayload(namespace, RequestFlags(0, wantResult), key))
            == Some(DeleteCall(namespace, wantResult, key))
  {
    DecodeWordsOfWordsBytes([namespace, RequestFlags(0, wantResult)], KeyBytes(key));
    ParseKeyOfKeyBytes(key, []);
    assert KeyBytes(key) + [] == KeyBytes(key);
    WantOfRequestFlags(wantResult);
  }

  /** `updateRequest`: namespace and flags as u32 words, the key, the number
      of operations as a u32, then each operation. */
  function UpdatePayload(namespace: u32, flags: u32, key: Key, ops: seq<UpdateOperation>): seq<byte>
    requires |ops| < 0x1_0000_0000
  {
    WordsBytes([namespace, flags]) + KeyBytes(key) + U32Bytes(|ops|) + OpsBytes(ops)
  }

  datatype UpdateCall = UpdateCall(namespace: u32, wantResult: bool, key: Key, ops: seq<UpdateOperation>)

  /** The server's reading of an update by a primary key with field kinds
      `keyKinds`, whose operands have kinds `opKinds` (which the server
      knows from the fields the operations name). */
  function ParseUpdate(keyKinds: seq<FieldKind>, opKinds: seq<FieldKind>, s: seq<byte>): (r: Option<UpdateCall>)
    ensures r.Some? ==> KindsOf(Components(r.value.key)) == keyKinds && |r.value.ops| == |opKinds|
  {
    match DecodeWords(2, s)
    case Err(_) => None
    case Ok((ws, after)) =>
      match (WantOf(ws[1]), ParseKey(keyKinds, after))
      case (Some(want), Some((key, s1))) =>
        (match DecodeU32(s1)
         case Err(_) => None
         case Ok((count, s2)) =>
           if count != |opKinds| then None
           else match ParseOps(opKinds, s2)
             case None => None
             case Some((ops, tail)) =>
               if tail != [] then None else Some(UpdateCall(ws[0], want, key, ops)))
      case _ => None
  }

  lemma {:induction false} ParseUpdateOfUpdatePayload(namespace: u32, wantResult: bool, key: Key, ops: seq<UpdateOperation>)
    requires |ops| < 0x1_0000_0000
    ensures ParseUpdate(KindsOf(Components(key)), OperandKinds(ops), UpdatePayload(namespace, RequestFlags(0, wantResult), key, ops))
            == Some(UpdateCall(namespace, wantResult, key, ops))
  {
    var H, K, C, O := WordsBytes([namespace, RequestFlags(0, wantResult)]), KeyBytes(key), U32Bytes(|ops|), OpsBytes(ops);
    Rebracket(H + K, C, O);
    Rebracket(H, K, C + O);
    DecodeWordsOfWordsBytes([namespace, RequestFlags(0, wantResult)], K + (C + O));
    ParseKeyOfKeyBytes(key, C + O);
    DecodeU32OfU32Bytes(|ops|, O);
    ParseOpsOfOpsBytes(ops, []);
    assert O + [] == O;
    WantOfRequestFlags(wantResult);
    ParseUpdateParts(KindsOf(Components(key)), OperandKinds(ops), H + K + C + O, namespace, RequestFlags(0, wantResult), wantResult,
                     key, ops, K + (C + O), C + O, O);
  }

  /** An update read part by part. */
  lemma ParseUpdateParts(keyKinds: seq<FieldKind>, opKinds: seq<FieldKind>, s: seq<byte>, namespace: u32, flags: u32, want: bool,
                         key: Key, ops: seq<UpdateOperation>, after: seq<byte>, s1: seq<byte>, s2: seq<byte>)
    requires DecodeWords(2, s) == Ok(([namespace, flags], after)) && WantOf(flags) == Some(want)
    requires ParseKey(keyKinds, after) == Some((key, s1))
    requires DecodeU32(s1) == Ok((|opKinds|, s2))
    requires ParseOps(opKinds, s2) == Some((ops, []))
    ensures ParseUpdate(keyKinds, opKinds, s) == Some(UpdateCall(namespace, want, key, ops))
  {
  }

  // ---------------------------------------------------------------------
  // Building the messages

  /** The select payload as `selectRequest` appends it. */
  lemma {:induction false} SelectPayloadLayout(namespace: u32, index: u32, offset: u32, limit: u32, keys: seq<Key>)
    requires |keys| < 0x1_0000_0000
    ensures SelectPayload(namespace, index, offset, limit, keys)
            == U32Bytes(namespace) + U32Bytes(index) + U32Bytes(offset) + U32Bytes(limit) + U32Bytes(|keys|) + KeysBytes(keys)
  {
    HeaderLayout5(namespace, index, offset, limit, |keys|);
  }

  /** The key loop of `selectRequest`: appends each key in order. */
  method AppendKeys(buf: Buffer, keys: seq<Key>)
    modifies buf
    ensures buf.data == old(buf.data) + KeysBytes(keys)
  {
    for i := 0 to |keys|
      invariant buf.data == old(buf.data) + KeysBytes(keys[..i])
    {
      assert keys[..i + 1] == keys[..i] + [keys[i]];
      KeysBytesSnoc(keys[..i], keys[i]);
      Rebracket(old(buf.data), KeysBytes(keys[..i]), KeyBytes(keys[i]));
      AppendKey(buf, Supported(keys[i]));
    }
    assert keys[..|keys|] == keys;
  }

  /** `selectRequest`: a select message for the given keys, sent to
      `shard`. */
  method SelectRequest(rt: RecordType, shard: int, index: Index, keys: seq<Key>, offset: u32, limit: u32) returns (m: Message)
    requires |keys| < 0x1_0000_0000
    ensures fresh(m) && fresh(m.options)
    ensures m.code == Code(Select) && m.data == SelectPayload(rt.namespace, index.number, offset, limit, keys)
    ensures m.options.Snapshot() == FreshOptions(rt, Select).(shard := shard)
  {
    var buf := new Buffer();
    buf.AppendNative(UInt32, rt.namespace);
    assert buf.data == U32Bytes(rt.namespace);
    buf.AppendNative(UInt32, index.number);
    buf.AppendNative(UInt32, offset);
    buf.AppendNative(UInt32, limit);
    buf.AppendNative(UInt32, |keys|);
    AppendKeys(buf, keys);
    SelectPayloadLayout(rt.namespace, index.number, offset, limit, keys);
    m := new Message(Select, buf.data, rt.cluster.base, rt.cluster.temporaryFlag);
    m.options.shard := shard;
  }

  /** The keys asked of `shard`, in the order they were given. */
  function KeysOfShard(keys: seq<(int, Key)>, shard: int): (r: seq<Key>)
    ensures |r| <= |keys|
  {
    if keys == [] then []
    else
      var last := keys[|keys| - 1];
      KeysOfShard(keys[..|keys| - 1], shard) + (if last.0 == shard then [last.1] else [])
  }

  /** A shard has keys exactly when some key is asked of it. */
  lemma {:induction false} KeysOfShardEmpty(keys: seq<(int, Key)>, shard: int)
    ensures KeysOfShard(keys, shard) == [] <==> forall j :: 0 <= j < |keys| ==> keys[j].0 != shard
  {
    if keys != [] {
      var init := keys[..|keys| - 1];
      KeysOfShardEmpty(init, shard);
      assert forall j :: 0 <= j < |init| ==> init[j] == keys[j];
    }
  }

  /** A key is asked of a shard exactly when the pair is among the keys. */
  lemma {:induction false} KeysOfShardMembers(keys: seq<(int, Key)>, shard: int, k: Key)
    ensures k in KeysOfShard(keys, shard) <==> (shard, k) in keys
  {
    if keys != [] {
      var init := keys[..|keys| - 1];
      KeysOfShardMembers(init, shard, k);
      assert keys == init + [keys[|keys| - 1]];
    }
  }

  /** Grouping keeps the order of the keys: the keys of a shard in `a + b`
      are those in `a`, then those in `b`. */
  lemma {:induction false} KeysOfShardAppend(a: seq<(int, Key)>, b: seq<(int, Key)>, shard: int)
    ensures KeysOfShard(a + b, shard) == KeysOfShard(a, shard) + KeysOfShard(b, shard)
  {
    if b == [] {
      assert a + b == a;
    } else {
      var last := b[|b| - 1];
      var init := b[..|b| - 1];
      assert (a + b)[..|a + b| - 1] == a + init && (a + b)[|a + b| - 1] == last;
      KeysOfShardAppend(a, init, shard);
      var tail := if last.0 == shard then [last.1] else [];
      assert KeysOfShard(a, shard) + KeysOfShard(init, shard) + tail == KeysOfShard(a, shard) + (KeysOfShard(init, shard) + tail);
    }
  }

  lemma {:induction false} KeysOfShardStep(keys: seq<(int, Key)>, i: nat, shard: int)
    requires i < |keys|
    ensures KeysOfShard(keys[..i + 1], shard) == KeysOfShard(keys[..i], shard) + (if keys[i].0 == shard then [keys[i].1] else [])
  {
    assert keys[..i + 1][..i] == keys[..i];
  }

  /** The grouping loop of `selectRequests`: the keys of each shard, in
      order; a shard is a key of the result exactly when a key is asked of
      it. `shards` lists those shards once each, in the order of their first
      key: the order in which the result is iterated (a dictionary's own
      order is not fixed). */
  method GroupByShard(keys: seq<(int, Key)>) returns (byShard: map<int, seq<Key>>, shards: seq<int>)
    ensures forall shard :: shard in shards <==> exists j :: 0 <= j < |keys| && keys[j].0 == shard
    ensures forall i, j :: 0 <= i < j < |shards| ==> shards[i] != shards[j]
    ensures forall shard :: shard in byShard <==> shard in shards
    ensures forall shard :: shard in byShard ==> byShard[shard] == KeysOfShard(keys, shard)
  {
    byShard, shards := map[], [];
    for i := 0 to |keys|
      invariant Grouped(keys, i, byShard, shards)
    {
      var (shard, key) := keys[i];
      GroupedStep(keys, i, byShard, shards);
      if shard in byShard {
        byShard := byShard[shard := byShard[shard] + [key]];
      } else {
        byShard, shards := byShard[shard := [key]], shards + [shard];
      }
    }
    assert keys[..|keys|] == keys;
  }

  /** `byShard` and `shards` after the first `n` keys: the shards met so
      far, each once, in order of first appearance, each with its keys so
      far in order. */
  ghost predicate Grouped(keys: seq<(int, Key)>, n: nat, byShard: map<int, seq<Key>>, shards: seq<int>)
    requires n <= |keys|
  {
    (forall shard :: shard in shards <==> exists j :: 0 <= j < n && keys[j].0 == shard) &&
    (forall shard :: shard in byShard <==> shard in shards) &&
    (forall shard :: shard in byShard ==> byShard[shard] == KeysOfShard(keys[..n], shard)) &&
    (forall a, b :: 0 <= a < b < |shards| ==> shards[a] != shards[b])
  }

  /** One more key: appended to its shard's keys, the shard added at the
      end when it is new. */
  lemma GroupedStep(keys: seq<(int, Key)>, i: nat, byShard: map<int, seq<Key>>, shards: seq<int>)
    requires i < |keys| && Grouped(keys, i, byShard, shards)
    ensures keys[i].0 in byShard ==> Grouped(keys, i + 1, byShard[keys[i].0 := byShard[keys[i].0] + [keys[i].1]], shards)
    ensures keys[i].0 !in byShard ==> Grouped(keys, i + 1, byShard[keys[i].0 := [keys[i].1]], shards + [keys[i].0])
  {
    var (shard, key) := keys[i];
    forall other | other in byShard
      ensures KeysOfShard(keys[..i + 1], other) == KeysOfShard(keys[..i], other) + (if other == shard then [key] else [])
    {
      KeysOfShardStep(keys, i, other);
    }
    if shard !in byShard {
      KeysOfShardEmpty(keys[..i], shard);
      KeysOfShardStep(keys, i, shard);
    }
  }

  /** `m` is the select `selectRequests` sends to `shard`: that shard's
      keys with the default offset and limit. */
  ghost predicate SelectOfShard(m: Message, rt: RecordType, index: Index, keys: seq<(int, Key)>, shard: int)
    requires |keys| < 0x1_0000_0000
    reads m, m.options
  {
    m.code == Code(Select) &&
    m.data == SelectPayload(rt.namespace, index.number, DefaultOffset, DefaultLimit, KeysOfShard(keys, shard)) &&
    m.options.Snapshot() == FreshOptions(rt, Select).(shard := shard)
  }

  /** `selectRequests`: one select per shard that keys are asked of, each
      with that shard's keys in order; `shards` is the order of the
      messages. */
  method SelectRequests(rt: RecordType, index: Index, keys: seq<(int, Key)>) returns (messages: seq<Message>, shards: seq<int>)
    requires |keys| < 0x1_0000_0000
    ensures |messages| == |shards|
    ensures forall shard :: shard in shards <==> exists j :: 0 <= j < |keys| && keys[j].0 == shard
    ensures forall i, j :: 0 <= i < j < |shards| ==> shards[i] != shards[j]
    ensures forall i :: 0 <= i < |messages| ==>
              fresh(messages[i]) && fresh(messages[i].options) && SelectOfShard(messages[i], rt, index, keys, shards[i])
  {
    var byShard;
    byShard, shards := GroupByShard(keys);
    forall k | 0 <= k < |shards|
      ensures shards[k] in byShard && byShard[shards[k]] == KeysOfShard(keys, shards[k])
    {
      assert shards[k] in shards;
    }
    messages := SelectsOf(rt, index, byShard, shards);
  }

  /** The message loop of `selectRequests`: one select per shard, with
      the keys grouped under it. */
  method SelectsOf(rt: RecordType, index: Index, byShard: map<int, seq<Key>>, shards: seq<int>) returns (messages: seq<Message>)
    requires forall k :: 0 <= k < |shards| ==> shards[k] in byShard && |byShard[shards[k]]| < 0x1_0000_0000
    ensures |messages| == |shards|
    ensures forall k :: 0 <= k < |shards| ==>
              fresh(messages[k]) && fresh(messages[k].options) && messages[k].code == Code(Select) &&
              messages[k].data == SelectPayload(rt.namespace, index.number, DefaultOffset, DefaultLimit, byShard[shards[k]]) &&
              messages[k].options.Snapshot() == FreshOptions(rt, Select).(shard := shards[k])
  {
    messages := [];
    for i := 0 to |shards|
      invariant |messages| == i
      invariant forall k :: 0 <= k < i ==>
                  fresh(messages[k]) && fresh(messages[k].options) && messages[k].code == Code(Select) &&
                  messages[k].data == SelectPayload(rt.namespace, index.number, DefaultOffset, DefaultLimit, byShard[shards[k]]) &&
                  messages[k].options.Snapshot() == FreshOptions(rt, Select).(shard := shards[k])
    {
      var m := SelectRequest(rt, shards[i], index, byShard[shards[i]], DefaultOffset, DefaultLimit);
      messages := messages + [m];
    }
  }

  /** The static `deleteRequest`: a delete by key; a `Sharded` record type
      sends it to `shard`, any other to the transport's default shard. */
  method DeleteRequest(rt: RecordType, shard: int, key: Key, wantResult: bool) returns (m: Message)
    ensures fresh(m) && fresh(m.options)
    ensures m.code == Code(Delete) && m.data == DeletePayload(rt.namespace, RequestFlags(0, wantResult), key)
    ensures m.options.Snapshot() == if rt.sharded then FreshOptions(rt, Delete).(shard := shard) else FreshOptions(rt, Delete)
  {
    var flags := RequestFlags(0, wantResult);
    var buf := new Buffer();
    buf.AppendNative(UInt32, rt.namespace);
    assert buf.data == U32Bytes(rt.namespace);
    buf.AppendNative(UInt32, flags);
    AppendKey(buf, Supported(key));
    DeletePayloadLayout(rt.namespace, flags, key);
    m := new Message(Delete, buf.data, rt.cluster.base, rt.cluster.temporaryFlag);
    if rt.sharded {
      m.options.shard := shard;
    }
  }
}
