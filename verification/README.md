# OctopusBox client core, modelled in Dafny

OctopusBox is a Swift client for the Octopus/Tarantool "box" protocol. Its
core turns records into request messages and reads records back out of
responses. This project models that core:

- the wire form of fields (`Field.swift`);
- tuples, their schema and decoding onto a record (`Tuple.swift`);
- index keys (`Index.swift`);
- update operations and the update/queued-update requests (`Update.swift`);
- the per-message options and their overrides (`Options.swift`);
- selects, inserts and deletes, response processing, and the in-place
  changes to a mutable record (`Record.swift`);
- the protocol's constants (`Common.swift`).

Modules, one per concern:

| module | file | what it holds |
|---|---|---|
| `Common` | common.dfy | message types and their codes, flags, insert actions, storage info, errors, `Result`, transport responses |
| `Wire` | wire.dfy | the byte encoding the client writes: little-endian native integers, LEB128 `VarUInt`, UTF-8 texts; an append-only `Buffer` and a consuming `Reader` (classes, state changed in place) |
| `FieldCodec` | field.dfy | field values and their size-prefixed encoding |
| `TupleLayout` | tuple.dfy | properties of a tuple, its schema, `append(tuple:)`, `UnsafeTuple` and its reader, `init(fromUnsafe:)`, `field(_:)` |
| `KeyCodec` | index.dfy | keys of one to three fields, indexes and `append(key:)` |
| `UpdateOps` | update.dfy | update operations, their builders and encoding |
| `OptionsOverlay` | options.dfy | message options, `OverridenOptions.apply`, per-type defaults, the soft-retry check, `Message` |
| `Requests` | requests.dfy | select/insert/delete/update payloads, `selectRequest(s)`, `deleteRequest` |
| `Responses` | responses.dfy | `processResponse(s)`, `groupBy` |
| `Records` | records.dfy | `select` in all its forms, and a `MutableRecord` class with insert, delete, update, queued update and the in-place `processResponse` |

Every encoder has a decoder partner: the server's reading of a request, or
the client's reading of a reply. They are connected by round-trip lemmas:
decoding what was encoded gives back the value and leaves the rest of the
stream untouched. Methods that build bytes through a `Buffer` or consume
them through a `Reader` are proved equal to these functions. The methods of
`MutableRecord` state their new state as a function of the old state and the
response: the record's tuple, its storage info and its update queue.

Three details of the code that the model keeps:

- the error for a unique select that returns several tuples carries the
  count;
- insert without a result wanted still sets the storage info after the
  checks succeed;
- delete clears the storage info only after a successful response.

## Model

| member | source | states |
|---|---|---|
| Common.CodeDeterminesType | Sources/OctopusBox/Common.swift:3-9 | each message type's code (insert 13, select 17, update 19, delete 21, execLua 22) maps back to that type and no other |
| Common.MessageTypeOf | Sources/OctopusBox/Common.swift:3-9 | a code read as a message type is one whose code it is |
| Common.InsertActionOf | Sources/OctopusBox/Common.swift:15-19 | a bit pattern read as an insert action is one whose raw value it is |
| Common.ActionBits | Sources/OctopusBox/Common.swift:15-19 | every insert action's raw value leaves the want-result bit clear |
| Common.InsertFlagsDetermineActionAndWant | Sources/OctopusBox/Record.swift:115-118 | the insert flags (action raw value, or-ed with `wantResult` 0x1 when asked) determine both the action and whether a result is wanted |
| Common.StorageInfoShardDefault | Sources/OctopusBox/Common.swift:23-26 | a storage info built without a shard has shard 0 |
| Wire.LittleEndianRoundTrip | Sources/OctopusBox/Field.swift:38-41 | a native integer written in its width reads back as itself |
| Wire.FromLittleEndianRoundTrip | Sources/OctopusBox/Field.swift:32-36 | any run of bytes read as an integer and written back gives the same bytes |
| Wire.FromTwosComplement | Sources/OctopusBox/Field.swift:22-29 | reading the unsigned bit pattern of a fixed-width integer gives a value in the type's range whose bit pattern it is |
| Wire.TwosComplement | Sources/OctopusBox/Field.swift:22-29 | the bit pattern of a value in range lies below 2^(8·width) |
| Wire.DecodeNativeOfNativeBytes | Sources/OctopusBox/Field.swift:32-41 | reading a native integer from its own encoding gives it back and leaves the rest |
| Wire.DecodeNative | Sources/OctopusBox/Field.swift:35 | a read native integer is in range and consumes exactly its width |
| Wire.DecodeU32OfU32Bytes | Sources/OctopusBox/Record.swift:46-50 | a u32 word reads back as itself and leaves the rest |
| Wire.DecodeVarUIntOfVarUInt | Sources/OctopusBox/Field.swift:32-41 | a `VarUInt` size prefix reads back as itself and leaves the rest |
| Wire.DecodeVarUInt | Sources/OctopusBox/Field.swift:33 | a successful `VarUInt` read consumes at least one byte |
| Wire.DecodeText | Sources/OctopusBox/Field.swift:55-57 | a read text has exactly the size asked for, is well-formed UTF-8, and the remaining bytes follow it |
| Wire.TakeBytes | Sources/OctopusBox/Tuple.swift:174 | a read of `n` bytes succeeds exactly when `n` bytes remain, and then takes exactly `n` |
| Wire.TakeBytesOfAppend | Sources/OctopusBox/Tuple.swift:174 | reading as many bytes as were written gives them back and leaves the rest |
| Wire.Buffer.AppendNative | Sources/OctopusBox/Field.swift:38-41 | the buffer grows by the integer's little-endian bytes and nothing else changes |
| Wire.Buffer.AppendVarUInt | Sources/OctopusBox/Field.swift:38-39 | the buffer grows by the `VarUInt` bytes |
| Wire.Buffer.AppendBytes | Sources/OctopusBox/Field.swift:49-51 | the buffer grows by the bytes given |
| Wire.Buffer.WriteNativeAt | Sources/OctopusBox/Tuple.swift:146 | only the bytes at the given offset are replaced, by the integer's encoding |
| Wire.Reader.ReadU32 | Sources/OctopusBox/Tuple.swift:172-173 | the reader consumes exactly what `DecodeU32` reads, or fails with its error |
| Wire.Reader.ReadNative | Sources/OctopusBox/Field.swift:35 | the reader consumes exactly what `DecodeNative` reads, or fails with its error |
| Wire.Reader.ReadVarUInt | Sources/OctopusBox/Field.swift:33 | the reader consumes exactly what `DecodeVarUInt` reads, or fails with its error |
| Wire.Reader.ReadBytes | Sources/OctopusBox/Tuple.swift:174 | the reader consumes exactly the bytes asked for, or fails without enough |
| Wire.Reader.ReadText | Sources/OctopusBox/Field.swift:55-57 | the reader consumes exactly what `DecodeText` reads, or fails with its error |
| FieldCodec.NativeFieldLayout | Sources/OctopusBox/Field.swift:38-41 | a native field is its width as a `VarUInt` followed by its little-endian bytes |
| FieldCodec.DecodeFieldOfFieldBytes | Sources/OctopusBox/Field.swift:32-61 | every field (native, blob, text) read back as its own type gives itself and leaves the rest |
| FieldCodec.DecodeNativeWrongSize | Sources/OctopusBox/Field.swift:32-36 | a native field whose size prefix is not the type's width fails with `invalidFieldSize` |
| FieldCodec.DecodeField | Sources/OctopusBox/Field.swift:32-61 | a read field has the type asked for and consumes at least one byte |
| FieldCodec.FieldsBytesAppend | Sources/OctopusBox/Field.swift:9-11 | appending fields one after another concatenates their encodings |
| FieldCodec.DecodeFieldsOfFieldsBytes | Sources/OctopusBox/Field.swift:9-17 | a sequence of fields read back by their types gives the same fields and leaves the rest |
| FieldCodec.DecodeFields | Sources/OctopusBox/Field.swift:15-17 | fields read in sequence have the types asked for |
| FieldCodec.AppendField | Sources/OctopusBox/Field.swift:9-11 | the buffer grows by exactly the field's encoding |
| FieldCodec.ReadField | Sources/OctopusBox/Field.swift:15-17 | the reader consumes what `DecodeField` reads; on a wrong native size it has consumed the size prefix only |
| TupleLayout.PropertiesInfo | Sources/OctopusBox/Tuple.swift:51-73 | the schema has one entry per stored property |
| TupleLayout.SameSchemaCons | Sources/OctopusBox/Tuple.swift:51-73 | two tuples have the same schema exactly when their first properties and their remainders do |
| TupleLayout.FieldsAppend | Sources/OctopusBox/Tuple.swift:138-145 | the fields of a tuple are those of its parts in order, with `storageInfo` skipped |
| TupleLayout.FieldNamesAppend | Sources/OctopusBox/Tuple.swift:35-47 | the numbered fields of a schema are those of its parts in order |
| TupleLayout.AppendTuple | Sources/OctopusBox/Tuple.swift:133-147 | the buffer grows by the field count as a u32 followed by every field's encoding, `storageInfo` excluded |
| TupleLayout.AppendFieldsOf | Sources/OctopusBox/Tuple.swift:138-145 | the count returned is the number of fields written, and the buffer grows by their encodings in order |
| TupleLayout.DecodeUnsafeTupleOfResponseTupleBytes | Sources/OctopusBox/Tuple.swift:171-176 | a response tuple (size, cardinality, body) reads back as itself and leaves the rest |
| TupleLayout.DecodeUnsafeTuple | Sources/OctopusBox/Tuple.swift:171-176 | a read response tuple consumes its 8 header bytes and exactly its body size |
| TupleLayout.ReadUnsafeTuple | Sources/OctopusBox/Tuple.swift:171-176 | the reader consumes exactly what `DecodeUnsafeTuple` reads, or fails with its error |
| TupleLayout.DecodeProperty | Sources/OctopusBox/Tuple.swift:20-27 | one step of `init(fromUnsafe:)`: the schema entry is kept; `storageInfo`, or a field after the cardinality is used up, is left as it was; a read field uses up one of the cardinality |
| TupleLayout.DecodeOnto | Sources/OctopusBox/Tuple.swift:16-29 | decoding onto a tuple keeps its schema |
| TupleLayout.DecodeOntoSuffix | Sources/OctopusBox/Tuple.swift:20-28 | the loop over the schema goes one property at a time, and the first failure ends it |
| TupleLayout.FieldsOfOverwrite | Sources/OctopusBox/Tuple.swift:20-28 | overwriting a tuple's first fields with `vs` gives `vs` followed by its remaining fields |
| TupleLayout.OverwriteWithOwnFields | Sources/OctopusBox/Tuple.swift:16-29 | overwriting any tuple of a schema with all the fields of another gives that other tuple |
| TupleLayout.OverwriteEmpty | Sources/OctopusBox/Tuple.swift:23 | with no fields read, every property keeps its default |
| TupleLayout.EmptyFieldsSameSchema | Sources/OctopusBox/Tuple.swift:51-73 | two tuples of a schema without fields are equal |
| TupleLayout.DecodeOntoNoneRemaining | Sources/OctopusBox/Tuple.swift:23 | a zero cardinality leaves the tuple unchanged, whatever the bytes |
| TupleLayout.DecodeOntoShortWire | Sources/OctopusBox/Tuple.swift:16-29 | a tuple with fewer fields on the wire than the schema keeps its own values for the rest |
| TupleLayout.DecodeOntoOfFieldsPrefix | Sources/OctopusBox/Tuple.swift:16-29 | the fields read are the first ones, overwritten in order |
| TupleLayout.DecodeOntoOfFieldsBytes | Sources/OctopusBox/Tuple.swift:16-29 | a tuple appended with `append(tuple:)` and read back over any tuple of its schema gives itself |
| TupleLayout.SameSchemaSameKinds | Sources/OctopusBox/Tuple.swift:51-73 | tuples of a schema have fields of the same types in the same order |
| TupleLayout.DecodeOntoIgnoresSurplus | Sources/OctopusBox/Tuple.swift:20-28 | a cardinality beyond the schema's field count reads no further |
| TupleLayout.TupleReader.Read | Sources/OctopusBox/Tuple.swift:162-166 | with nothing remaining it gives `nil` and reads nothing; otherwise it uses up one of the count even when the read fails, and reads exactly one field |
| TupleLayout.ReadProperty | Sources/OctopusBox/Tuple.swift:21-27 | the reader does what `DecodeProperty` describes |
| TupleLayout.InitFromUnsafe | Sources/OctopusBox/Tuple.swift:16-29 | `init(fromUnsafe:)` gives `DecodeOnto` of the default tuple over the tuple's body and cardinality |
| TupleLayout.ResolveField | Sources/OctopusBox/Tuple.swift:31-49 | the number returned is the position of the property among the fields; `storageInfo` is not counted |
| TupleLayout.ResolveCheckUp | Tests/OctopusBoxTests/OctopusBoxTests.swift:75-89 | in the `Inplace` schema of the tests, `checkUp` is field number 3 |
| TupleLayout.SchemaCache.PropertiesInfoOf | Sources/OctopusBox/Tuple.swift:51-73 | a cached schema is returned as is; a new one is computed from the prototype and cached without touching the other entries |
| KeyCodec.Components | Sources/OctopusBox/Index.swift:43-60 | a key has one to three fields, in order |
| KeyCodec.ComponentsOfKeyOf | Sources/OctopusBox/Index.swift:43-60 | a key is built from fields exactly when those are its components |
| KeyCodec.KeyOf | Sources/OctopusBox/Index.swift:43-60 | fields make a key exactly when there are one to three of them |
| KeyCodec.KeyLayout3 | Sources/OctopusBox/Index.swift:52-56 | a three-field key is the count 3 as a u32 followed by its fields in order |
| KeyCodec.KeyLayout2 | Sources/OctopusBox/Index.swift:48-51 | a two-field key is the count 2 as a u32 followed by its fields in order |
| KeyCodec.KeyLayout1 | Sources/OctopusBox/Index.swift:45-47 | a one-field key is the count 1 as a u32 followed by the field |
| KeyCodec.ParseKeyOfKeyBytes | Sources/OctopusBox/Index.swift:43-60 | the server's reading of an encoded key gives the key back and leaves the rest |
| KeyCodec.ParseKey | Sources/OctopusBox/Index.swift:43-60 | a read key has the field types asked for and consumes at least its count word |
| KeyCodec.AppendKey | Sources/OctopusBox/Index.swift:43-60 | the buffer grows by the key's encoding; an unsupported shape is refused by the precondition |
| KeyCodec.UniqIndex | Sources/OctopusBox/Index.swift:17-27 | `uniqIndex` keeps the number and the key function and is unique, whatever `uniq` says |
| KeyCodec.NonUniqIndex | Sources/OctopusBox/Index.swift:29-39 | `index` keeps the number and the key function and is not unique, whatever `uniq` says |
| KeyCodec.UniquenessDoesNotAffectKeys | Sources/OctopusBox/Index.swift:17-39 | the ignored `uniq` argument changes nothing, and both kinds of index extract the same keys |
| KeyCodec.ExtractedArity | Sources/OctopusBox/Index.swift:3-11 | an index's key function gives keys of the same arity for every tuple |
| KeyCodec.AppendKeyFrom | Sources/OctopusBox/Index.swift:62-64 | the buffer grows by the encoding of the key the index takes from the tuple |
| UpdateOps.Opcode | Sources/OctopusBox/Update.swift:115-126 | every opcode is one of 0…7 |
| UpdateOps.OpcodeInjective | Sources/OctopusBox/Update.swift:115-126 | different operations have different opcodes |
| UpdateOps.SetField | Sources/OctopusBox/Update.swift:58-60 | `set(v)` is opcode 0 on the field's number with `v` as operand |
| UpdateOps.DeleteField | Sources/OctopusBox/Update.swift:62-64 | `delete()` is opcode 6 on the field's number, with no operand bytes |
| UpdateOps.InsertField | Sources/OctopusBox/Update.swift:66-68 | `insert(v)` is opcode 7 on the field's number with `v` as operand |
| UpdateOps.Add | Sources/OctopusBox/Update.swift:71-74 | `add(v)`, for integer fields only, is opcode 1 on the field's number with `v` as operand |
| UpdateOps.And | Sources/OctopusBox/Update.swift:71-78 | `and(v)`, for integer fields only, is opcode 2 on the field's number with `v` as operand |
| UpdateOps.Xor | Sources/OctopusBox/Update.swift:71-82 | `xor(v)`, for integer fields only, is opcode 3 on the field's number with `v` as operand |
| UpdateOps.Or | Sources/OctopusBox/Update.swift:71-86 | `or(v)`, for integer fields only, is opcode 4 on the field's number with `v` as operand |
| UpdateOps.BuildersReadBack | Sources/OctopusBox/Update.swift:58-86 | the server reads each builder's operation back from its bytes: the field number, the operation and its operand, leaving what follows |
| UpdateOps.Sub | Sources/OctopusBox/Update.swift:89-93 | `sub(v)` is an add, on the same field, of a value of the same type that cancels `v`; the precondition excludes the negation that traps |
| UpdateOps.BitNot | Sources/OctopusBox/Update.swift:101 | `~v` has the complementary bit pattern within the type's width |
| UpdateOps.BitNotInvolutive | Sources/OctopusBox/Update.swift:101 | complementing twice gives the value back |
| UpdateOps.SetBit | Sources/OctopusBox/Update.swift:96-98 | `setBit` is an or, on the same field, with the raw value |
| UpdateOps.ClearBit | Sources/OctopusBox/Update.swift:100-102 | `clearBit` is an and, on the same field, with a value whose bit pattern is the complement of the raw value |
| UpdateOps.OpcodeByte | Sources/OctopusBox/Update.swift:141 | the opcode is written as a single byte |
| UpdateOps.AppendOperation | Sources/OctopusBox/Update.swift:135-138 | the buffer grows by the field number as a u32 and then the operation |
| UpdateOps.AppendOp | Sources/OctopusBox/Update.swift:140-162 | the buffer grows by the opcode followed by the operand: a field; two Int32 words and a field for splice; nothing for delete |
| UpdateOps.ParseOperandOfOperandBytes | Sources/OctopusBox/Update.swift:140-162 | the server's reading of an operand, knowing the opcode and the field's type, gives the operation back |
| UpdateOps.ParseSpliceOperand | Sources/OctopusBox/Update.swift:153-156 | a splice's offset, length and value read back as themselves |
| UpdateOps.ParseFieldOperand | Sources/OctopusBox/Update.swift:143-160 | an operation carrying one field reads back as itself |
| UpdateOps.ParseUpdateOpOfUpdateOpBytes | Sources/OctopusBox/Update.swift:140-162 | an encoded operation reads back as itself and leaves the rest |
| UpdateOps.ParseOpOfOpBytes | Sources/OctopusBox/Update.swift:135-138 | an encoded operation on a field number reads back as itself and leaves the rest |
| UpdateOps.OpsBytesAppend | Sources/OctopusBox/Update.swift:15-17 | appending operations one after another concatenates their encodings |
| UpdateOps.ParseOps | Sources/OctopusBox/Update.swift:14-17 | the server reads as many operations as it was told |
| UpdateOps.ParseOpsOfOpsBytes | Sources/OctopusBox/Update.swift:15-17 | a sequence of encoded operations reads back as itself, in order, and leaves the rest |
| UpdateOps.AppendOps | Sources/OctopusBox/Update.swift:15-17 | the buffer grows by every operation's encoding, in order |
| OptionsOverlay.Toggled | Sources/OctopusBox/Options.swift:50-59 | without a value the retry set is unchanged; with one, the member is in the set exactly when the value is true, and no other member moves |
| OptionsOverlay.MessageOptions.Toggle | Sources/OctopusBox/Options.swift:50-59 | the message's retry set becomes `Toggled` of the old one, and no other option changes |
| OptionsOverlay.Pick | Sources/OctopusBox/Options.swift:30-46 | an override that is present replaces the current value; an absent one keeps it |
| OptionsOverlay.Overlay | Sources/OctopusBox/Options.swift:29-47 | `apply` never touches the shard or the soft-retry settings |
| OptionsOverlay.OverlayReplacesExactlyThePresent | Sources/OctopusBox/Options.swift:29-47 | each option present in the overrides replaces the message's; each absent one leaves it; retry flags toggle one by one, and `maxTries` counts only inside `retry` |
| OptionsOverlay.OverlayNothing | Sources/OctopusBox/Options.swift:20 | empty overrides change nothing |
| OptionsOverlay.OverlayIdempotent | Sources/OctopusBox/Options.swift:29-47 | applying the same overrides twice is the same as once |
| OptionsOverlay.Apply | Sources/OctopusBox/Options.swift:29-47 | the message's options become the overlay of the overrides on the old options |
| OptionsOverlay.OverlayIfAny | Sources/OctopusBox/Record.swift:62 | optional overrides: none leaves the options unchanged, and the shard never changes |
| OptionsOverlay.ApplyIfAny | Sources/OctopusBox/Record.swift:62 | `options?.apply(to:)`: nothing without overrides, `Apply` with them |
| OptionsOverlay.Defaults | Sources/OctopusBox/Options.swift:61-88 | per type: reads from master-then-replica for select and master otherwise; `safe` retry exactly for update; timeouts 0.2 s / 0.5 s / 23 s; soft-retry delay 0.5–1.5 s except for select and execLua; the temporary-error soft-retry check; other options as the transport sets them |
| OptionsOverlay.SoftRetryOfErrcode | Sources/OctopusBox/Options.swift:75-87 | a reply is retried softly exactly when its error code has the temporary-error bit set |
| OptionsOverlay.SoftRetryNeedsAnErrcode | Sources/OctopusBox/Options.swift:75-87 | a transport error, an empty payload or a payload too short for an error code is never retried softly |
| OptionsOverlay.SuccessNotRetried | Sources/OctopusBox/Options.swift:75-87 | a success (error code 0) is never retried softly |
| OptionsOverlay.MessageOptions.constructor | Sources/OctopusBox/Options.swift:61-63 | fresh options are the ones the transport was given |
| OptionsOverlay.Message.constructor | Sources/OctopusBox/Options.swift:61-88 | `Message(cluster:type:data:)` carries the type's code and the data, and fresh options equal to the type's defaults |
| Requests.DecodeWordsOfWordsBytes | Sources/OctopusBox/Record.swift:46-50 | header words read back as themselves and leave the rest |
| Requests.DecodeWords | Sources/OctopusBox/Record.swift:46-50 | a header of `n` words is `4·n` bytes |
| Requests.HeaderLayout5 | Sources/OctopusBox/Record.swift:46-50 | the select header is namespace, index, offset, limit and key count, each a u32 |
| Requests.WantOfRequestFlags | Sources/OctopusBox/Record.swift:151-154 | flags built without an action bit read back as whether a result is wanted |
| Requests.KeysBytesSnoc | Sources/OctopusBox/Record.swift:51-53 | the keys loop appends one key's encoding per step |
| Requests.ParseKeysOfKeysBytes | Sources/OctopusBox/Record.swift:51-53 | the server's reading of the encoded keys gives the keys back and leaves the rest |
| Requests.ParseKeys | Sources/OctopusBox/Record.swift:50-53 | the server reads as many keys as the header announces |
| Requests.ParseKeysCons | Sources/OctopusBox/Record.swift:51-53 | reading keys extends by one key in front |
| Requests.SelectPayloadLayout | Sources/OctopusBox/Record.swift:42-53 | the select payload is the five header words followed by the keys, in order |
| Requests.ParseSelectOfSelectPayload | Sources/OctopusBox/Record.swift:42-53 | the server's reading of a select payload gives back namespace, index, offset, limit and every key, and consumes the whole payload |
| Requests.InsertPayloadLayout | Sources/OctopusBox/Record.swift:114-122 | the insert payload is namespace, flags, field count and the fields |
| Requests.ParseInsert | Sources/OctopusBox/Record.swift:114-122 | the server's reading of an insert gives fields of the namespace's types |
| Requests.ParseInsertOfInsertPayload | Sources/OctopusBox/Record.swift:114-122 | the server's reading of an insert payload gives back namespace, action, want-result flag and every field of the tuple, `storageInfo` excluded |
| Requests.ParseInsertOfFields | Sources/OctopusBox/Record.swift:114-122 | the same for any field sequence and any flags that carry a valid action |
| Requests.DeletePayloadLayout | Sources/OctopusBox/Record.swift:150-158 | the delete payload is namespace, flags and the key |
| Requests.ParseDelete | Sources/OctopusBox/Record.swift:150-158 | the server's reading of a delete gives a key of the primary key's types |
| Requests.ParseDeleteOfDeletePayload | Sources/OctopusBox/Record.swift:150-158 | the server's reading of a delete payload gives back namespace, want-result flag and key |
| Requests.ParseUpdate | Sources/OctopusBox/Update.swift:5-17 | the server's reading of an update gives a key of the primary key's types and as many operations as announced |
| Requests.ParseUpdateOfUpdatePayload | Sources/OctopusBox/Update.swift:5-17 | the server's reading of an update payload gives back namespace, want-result flag, key and every operation in order |
| Requests.AppendKeys | Sources/OctopusBox/Record.swift:51-53 | the buffer grows by every key's encoding, in order |
| Requests.SelectRequest | Sources/OctopusBox/Record.swift:42-57 | `selectRequest` gives a fresh select message with the select payload and the type's default options, with the shard set to the one given |
| Requests.KeysOfShard | Sources/OctopusBox/Record.swift:84-86 | a shard's keys come from the input |
| Requests.KeysOfShardEmpty | Sources/OctopusBox/Record.swift:84-86 | a shard gets no keys exactly when no input key names it |
| Requests.KeysOfShardMembers | Sources/OctopusBox/Record.swift:84-86 | a key is among a shard's keys exactly when the input pairs it with that shard |
| Requests.KeysOfShardAppend | Sources/OctopusBox/Record.swift:84-86 | grouping keeps the input order within each shard |
| Requests.GroupByShard | Sources/OctopusBox/Record.swift:83-86 | the dictionary has an entry for exactly the shards named, each holding that shard's keys in input order; the shards are listed once each |
| Requests.SelectRequests | Sources/OctopusBox/Record.swift:82-93 | one fresh select message per shard named, no shard twice, each carrying exactly that shard's keys in input order and sent to that shard |
| Requests.SelectsOf | Sources/OctopusBox/Record.swift:89-91 | the loop over the dictionary makes one message per shard, in the listed order |
| Requests.DeleteRequest | Sources/OctopusBox/Record.swift:150-164 | the static `deleteRequest` gives a fresh delete message with the delete payload; the shard is set only for a `Sharded` record type |
| Responses.CheckReply | Sources/OctopusBox/Record.swift:180-197 | a response gets past the checks only when it is a reply with an error code; then the answer is what follows the code, and its storage info is the answering replica with the message's shard |
| Responses.CheckReplyOfErrcode | Sources/OctopusBox/Record.swift:188-193 | error code 0 passes; any other fails with the server's error and its message, or with the UTF-8 error when the message is not text |
| Responses.CheckReplyShortPayload | Sources/OctopusBox/Record.swift:184-188 | an empty payload fails with `errcodeOmitted`; one of 1–3 bytes fails as a short read |
| Responses.DecodeRecordsBound | Sources/OctopusBox/Record.swift:204-208 | no more records than the count; for an insert, at most one |
| Responses.DecodeRecordsProvenance | Sources/OctopusBox/Record.swift:204-208 | every record read has the record type's schema and the reply's storage info |
| Responses.ResponseProvenance | Sources/OctopusBox/Record.swift:199-211 | every record `processResponse` returns came from a reply, with the default tuple's schema and that reply's storage info |
| Responses.TransportErrorPassedOn | Sources/OctopusBox/Record.swift:180-195 | a transport error in place of a reply is rethrown unchanged by the reply checks and by `processResponse`, with or without a result wanted |
| Responses.NoResultWanted | Sources/OctopusBox/Record.swift:210 | with no result wanted, a successful reply gives no records, whatever follows the error code |
| Responses.ServerErrorReported | Sources/OctopusBox/Record.swift:189-192 | a nonzero error code is reported with the server's message, whether or not a result is wanted |
| Responses.DecodeTupleReply | Sources/OctopusBox/Tuple.swift:162-176 | a tuple sent in a reply reads back as itself |
| Responses.RecordsOf | Sources/OctopusBox/Record.swift:206 | one record per tuple |
| Responses.DecodeRecordsOfTuples | Sources/OctopusBox/Record.swift:204-208 | the records read from a reply of non-insert tuples are those tuples, in order, each with the reply's storage info |
| Responses.SelectReplyRoundTrip | Sources/OctopusBox/Record.swift:199-211 | `processResponse` of a select reply gives the tuples sent, in order, with the reply's storage info |
| Responses.InsertReplyRoundTrip | Sources/OctopusBox/Record.swift:207 | an insert reply's count is of touched tuples: one tuple is read and the rest is ignored |
| Responses.OpenReply | Sources/OctopusBox/Record.swift:180-197 | the reader starts at the answer exactly when the checks pass; otherwise the checks' error |
| Responses.ProcessResponse | Sources/OctopusBox/Record.swift:199-211 | the static `processResponse` gives exactly `ResponseRecords` of the message and the response |
| Responses.ReadRecords | Sources/OctopusBox/Record.swift:203-209 | the loop reads exactly what `DecodeRecords` describes |
| Responses.GatherOk | Sources/OctopusBox/Record.swift:213-219 | the results of several responses combine successfully exactly when every one succeeds |
| Responses.GatherFirstError | Sources/OctopusBox/Record.swift:213-219 | the first failing response's error is the one thrown |
| Responses.GatherSnoc | Sources/OctopusBox/Record.swift:213-219 | the records of a further response are appended after those gathered so far |
| Responses.GatherPrefixStep | Sources/OctopusBox/Record.swift:215-217 | one step of the loop: an error stops it; records are appended |
| Responses.Outcomes | Sources/OctopusBox/Record.swift:215-217 | the outcome for each message is `processResponse` of its response |
| Responses.ProcessResponses | Sources/OctopusBox/Record.swift:213-219 | `processResponses` gathers the per-message outcomes in message order, stopping at the first error |
| Responses.KeepsLastUnique | Sources/OctopusBox/Record.swift:221-228 | the grouping is determined by the records |
| Responses.KeepsLastSnoc | Sources/OctopusBox/Record.swift:225-227 | a further record replaces whatever its key held |
| Responses.SameKeysSnoc | Sources/OctopusBox/Record.swift:225-227 | after the step, the keys are exactly those of the records seen |
| Responses.LastWinsSnoc | Sources/OctopusBox/Record.swift:225-227 | after the step, each key holds the last record seen with that key |
| Responses.GroupBy | Sources/OctopusBox/Record.swift:223-227 | the dictionary's keys are exactly the records' keys, and each holds the last record with that key |
| Responses.ProcessResponsesGroupBy | Sources/OctopusBox/Record.swift:221-228 | `processResponses(of:groupBy:)` fails with the gathered error, or groups the gathered records by key with the last one winning |
| Records.SelectKeys | Sources/OctopusBox/Record.swift:59-65 | no keys: nothing is sent and the result is empty; otherwise one select is sent, with the overrides applied and the shard given, and the result is `processResponse` of its reply |
| Records.Single | Sources/OctopusBox/Record.swift:69-75 | none or one record is a success (nil or that record); more fail with `notSingleTuple` and the count |
| Records.SelectUnique | Sources/OctopusBox/Record.swift:67-76 | a unique-index select sends a one-key select and gives the single record, nil, or the error |
| Records.UniqueSelectOfReply | Sources/OctopusBox/Record.swift:67-76 | on a select reply of `n` tuples: nil for none, the record for one, `notSingleTuple(n)` for more |
| Records.SelectNonUnique | Sources/OctopusBox/Record.swift:78-80 | a non-unique-index select sends a one-key select and gives every record of the reply |
| Records.ShardOutcomes | Sources/OctopusBox/Record.swift:105-108 | the outcome for each shard is `processResponse` of that shard's reply |
| Records.SelectAcrossShards | Sources/OctopusBox/Record.swift:95-110 | one message per shard named, each with that shard's keys and the overrides applied; the result gathers the shards' records in order and stops at the first error |
| Records.SelectsWithOverrides | Sources/OctopusBox/Record.swift:97-102 | the per-shard messages, with the overrides applied to each exactly once |
| Records.ApplyToEach | Sources/OctopusBox/Record.swift:98-102 | every message's options get the overrides, once each, and stay distinct objects |
| Records.AcrossShardsProvenance | Sources/OctopusBox/Record.swift:95-110 | the records of a cross-shard select come block by block in the order of the shards asked; each block comes from that shard's reply, carries the replica that answered and that shard, and has the record type's schema |
| Records.FromShardsMembers | Sources/OctopusBox/Record.swift:95-110 | every record of a cross-shard select names one of the shards asked and the replica that answered for that shard, and has the record type's schema |
| Records.UpdateData | Sources/OctopusBox/Update.swift:10-17 | the update payload: namespace and flags, the primary key from the tuple, the operation count, then each operation in order |
| Records.Synced | Sources/OctopusBox/Record.swift:232-246 | a record changes only after a successful reply with a result wanted; it keeps its schema, and the new storage info is the reply's |
| Records.SyncOfReply | Sources/OctopusBox/Record.swift:236-240 | a reply with a tuple replaces the record's tuple by it and sets the reply's storage info |
| Records.SyncWithoutTuple | Sources/OctopusBox/Record.swift:234-245 | no result wanted, or a count of 0, leaves the record as it was |
| Records.SyncServerError | Sources/OctopusBox/Record.swift:189-192 | a server error leaves the record unchanged and is reported |
| Records.Inserted | Sources/OctopusBox/Record.swift:134-146 | the outcome of an insert keeps the schema; without a result wanted only the storage info is set, to the reply's |
| Records.InsertWithoutResult | Sources/OctopusBox/Record.swift:141-144 | an insert without a result wanted, on success, sets the storage info to the reply's and keeps the tuple |
| Records.Deleted | Sources/OctopusBox/Record.swift:170-176 | a delete succeeds exactly when the response processing does, and then the record has no storage info |
| Records.TransportErrorLeavesRecord | Sources/OctopusBox/Record.swift:195 | a transport error reaches the caller of sync, insert and delete unchanged, so the record keeps its tuple and storage info |
| Records.DeleteOfReply | Sources/OctopusBox/Record.swift:170-176 | a delete with a result wanted takes the returned tuple and clears the storage info |
| Records.MutableRecord.constructor | Sources/OctopusBox/Record.swift:28-31 | `init(tuple:storageInfo:)` holds the tuple and the storage info, with an empty update queue |
| Records.MutableRecord.ProcessResponse | Sources/OctopusBox/Record.swift:232-246 | the record's new tuple and storage info are `Synced` of the old ones, and on error nothing changes |
| Records.MutableRecord.InsertRequest | Sources/OctopusBox/Record.swift:114-132 | a fresh insert message with the insert payload of the record's tuple; for a `Sharded` type the shard is the one given, or else the stored one |
| Records.MutableRecord.Insert | Sources/OctopusBox/Record.swift:134-146 | sends the insert request with the overrides; the record becomes `Inserted` of its old state and the reply, unchanged on error |
| Records.MutableRecord.DeleteRequest | Sources/OctopusBox/Record.swift:166-168 | a delete by the primary key of the record's tuple, to the stored shard (0 without one) for a `Sharded` type |
| Records.MutableRecord.Delete | Sources/OctopusBox/Record.swift:170-176 | sends the delete request with the overrides; the record becomes `Deleted` of its old state and the reply, unchanged on error |
| Records.MutableRecord.UpdateRequest | Sources/OctopusBox/Update.swift:5-23 | a fresh update message with the update payload; for a `Sharded` type the shard is the stored one, which the precondition requires |
| Records.MutableRecord.Update | Sources/OctopusBox/Update.swift:25-31 | no operations: nothing is sent and nothing changes; otherwise the update is sent with the overrides and the record becomes `Synced` of its old state and the reply |
| Records.MutableRecord.UpdateRequestQueued | Sources/OctopusBox/Update.swift:38-42 | the update request for the queued operations; the queue is emptied |
| Records.MutableRecord.UpdateQueued | Sources/OctopusBox/Update.swift:44-48 | an empty queue sends nothing; otherwise the queued operations are sent as one update; the queue ends empty whether or not the update failed |

## Left out

- The exchange with the server (`exchange(message:)`, `exchange(messages:)`) is not modelled. Its results are parameters: a `Response` for one message, and a function from shard to `Response` for a cross-shard select.
- Concurrency and the transport's own behaviour (retries, timeouts, replica choice) are not modelled. The options are modelled as the values handed to the transport.
- The transport's base options and the server's temporary-error bit (`TEMPORARY_ERR_CODE_FLAG`) come from `IProto` and `CIProto`, which are not part of this model. They are parameters of a `Cluster`.
- `BinaryEncoding`, the library behind `BinaryEncodedData` and its reader, is not part of this model. Its encodings are given explicitly: native integers little-endian in their memory width, `VarUInt` as LEB128, `String` as UTF-8 that must be well-formed on reading, and `UnsafeBufferRawPointer`/`BinaryEncodedData` as plain bytes.
- Reflection over a tuple's stored properties (`Mirror`, raw pointers, alignment) is not modelled. A tuple is the sequence of its properties: named fields and the `storageInfo` slot. `field(_:)` takes a property name instead of a pointer, and the property's position in memory order is its position in the sequence.
- The `preconditionFailure`s for a property that is not a `Field`, and for `field(_:)` on a pointer outside the tuple, are not modelled. The type of a property excludes the first; `ResolveField`'s precondition excludes the second.
- KeyCodec.AppendKey: the `preconditionFailure("Unsupported index")` for a key that is not one to three fields (`Index.swift:57-58`) is the precondition `key.Supported?`; the trap itself is not modelled.
- UpdateOps.Sub: Swift's `-value` traps when `value` is the least value of its integer type (`Update.swift:91`); the model requires that `-v` fits the field's kind (`InRange(k, -v)`) instead of modelling the trap.
- UpdateOps.SpliceOp: `Int32(offset)` and `Int32(length)` trap in Swift when the operands do not fit (`Update.swift:154-155`); the model gives the splice operation `i32` operands, and no public builder of the source produces a splice (the `UpdateOp` enum is internal).
- `TupleLayout.DecodeOnto`: `syncFields(fromUnsafe:)`, called at `Record.swift:238`, is not part of this model. It is modelled as `DecodeOnto` over the record's current tuple, which leaves the tuple unchanged when a read fails; a sync that writes fields in place as it reads them could leave the earlier fields written when a later read fails, and the model does not capture that. (For `init(fromUnsafe:)` there is no such gap: a throwing initializer discards the value it was building.)
- Timeouts and delays are `Double` seconds in Swift; the model keeps them as whole milliseconds (no arithmetic is done on them).
- Int→UInt32 conversions that trap in Swift (`UInt32(namespace)`, `UInt32(keys.count)`, `UInt32(ops.count)`, the cardinality and field numbers) are preconditions: the counts must fit in 32 bits. The namespace and field numbers are `u32` in the model.
- Swift dictionary iteration order (`for (shard, keys) in byShard` in `selectRequests`) is unspecified. The model iterates the shards in order of first appearance in the input, and proves that each shard is sent exactly once with its keys.
- Records.MutableRecord.UpdateRequest: `storageInfo!` on a `Sharded` record without storage info traps in Swift. The model makes it a precondition instead of modelling the trap.
- `QueueableUpdateRecord.updateQueue` is a protocol requirement whose initial value the conforming type chooses. The model starts the queue empty in the constructor.
- A Swift record is a struct or a class (the tests use final classes), and its `mutating` methods change it in place. The model holds the record in a class `MutableRecord` for the instance operations, and in a `Record` datatype for the records that selects return; the aliasing of a class record shared by several references is not modelled.
- `Record where Tuple == Self` (`Record.swift:23-39`) makes a record its own tuple. For a class record, the case the tests use, it adds no behaviour beyond the `tuple` field of the model. For a struct record the empty setter at `Record.swift:37` discards the fields that `syncFields` writes at `Record.swift:238`, so such a record would only take the new storage info; the model always takes the synced fields and does not capture that struct case.
- Deprecated `RecordProtocol` alias, `EqualWidthInteger` conformances and `Package.swift` are declarations with no behaviour and are not modelled.
