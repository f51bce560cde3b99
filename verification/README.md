# Schema-driven record engine of kafka-clients-prototype, in Dafny

This project models the part of the Kafka client prototype that turns structured records
into bytes and back. A `Schema` is an ordered list of named, typed fields. It is built by
a constructor that rejects repeated names and stamps each field with its slot. A `Record`
holds one value per slot. `Schema.write`, `Schema.read` and `Schema.sizeOf` walk the slots
in order and hand each value to its field's type, so nested schemas and arrays of schemas
recurse. `Protocol` declares the wire schemas of the request and response headers, the
metadata request and response and the produce request and response, plus a table of
request versions indexed by api key. `Utils` supplies the 32-bit unsigned integer helpers
and the CRC32 delegation.

Modules:

- `Results`: the `Result`/`Option` types and the error cases. These are the exceptions the
  Java code throws (buffer underflow and overflow, index out of bounds, duplicate field).
- `BigEndian`: big-endian byte strings and two's complement. This is how `java.nio.ByteBuffer`
  lays out its integers.
- `Buffers`: a byte buffer as its contents plus a cursor. The limit is the length of the
  contents. Relative operations move the cursor; absolute ones take an index.
- `Types`: wire types, fields, schemas, values and records, and what it means for a value
  to conform to a type.
- `Schemas`: the `Schema` constructor, `numFields`, `get(int)` and `get(String)`.
- `Codec`: `sizeOf`, `write` and `read` for every type. `Encode` is a reference layout: the
  bytes a value occupies. `Write` threads a buffer slot by slot, as the source does.
- `CodecProofs`: the round trip, the converse (whatever `read` accepts is an encoding), and
  the slot-order layout of a schema.
- `Utils`: `readUnsignedInt`, `writetUnsignedInt`, `writeUnsignedInt` and `crc32`.
- `Protocol`: the catalogue of schemas and the `REQUESTS` table.

The leaf types (INT8, INT16, INT32, INT64, STRING, BYTES) and the `kafka.common.protocol.types`
classes `Type`, `ArrayOf`, `Field` and `Record` are outside this model. Their layout is an
assumption taken from the protocol's documented wire format:
- integers are big-endian two's complement of width 1, 2, 4 or 8;
- STRING is a 2-byte signed length and BYTES a 4-byte signed length, followed by the bytes;
- an array is a 4-byte signed count, followed by the elements;
- a length or count of -1 stands for null.

Strings are held as their UTF-8 bytes.

## Model

| member | source | states |
|---|---|---|
| Schemas.NewSchema | src/main/kafka/common/protocol/types/Schema.java:15-25 | Construction succeeds exactly when no two input fields share a name. On success, slot i holds input field i with index i, and every field is filed under its own name. On failure, the error names the first field whose name was already seen. |
| Schemas.LookupsFollowInput | src/main/kafka/common/protocol/types/Schema.java:15-25 | For a schema built from a list with distinct names: numFields() is the input length; get(i) is input i adopted at index i; get(name) is the input field of that name, and is null exactly when no input field has that name. |
| Schemas.GetSlot | src/main/kafka/common/protocol/types/Schema.java:65-67 | get(slot) succeeds exactly for 0 <= slot < numFields(), and is an index error otherwise. The field returned belongs to the schema and carries index slot. |
| Schemas.GetByName | src/main/kafka/common/protocol/types/Schema.java:74-76 | get(name) returns a field exactly when some slot has that name, and null otherwise. The field returned has that name and sits in the slot its index names. |
| Schemas.SlotAndNameAgree | src/main/kafka/common/protocol/types/Schema.java:65-76 | For every valid slot i, get(get(i).name) == get(i). |
| Codec.SchemaWrite | src/main/kafka/common/protocol/types/Schema.java:27-33 | Writing a record succeeds exactly when its sizeOf fits in the remaining bytes, and is a buffer overflow otherwise. On success, it lays down the fields' encodings from slot 0 on at the cursor, leaves every other byte alone and advances the cursor by sizeOf. |
| Codec.WriteFieldsFrom | src/main/kafka/common/protocol/types/Schema.java:29-32 | The write loop from slot i on fits exactly when the remaining slots' sizes fit. It lays down their encodings in slot order and advances by their total size. |
| Codec.Write | src/main/kafka/common/protocol/types/Schema.java:31 | A field's type writes a conforming value when its size fits, and otherwise fails with a buffer overflow. It lays down the value's encoding at the cursor and advances by its size. |
| Codec.Encode | src/main/kafka/common/protocol/types/Schema.java:45-51 | A value's encoding is exactly as long as its sizeOf. |
| Schemas.NumFields | src/main/kafka/common/protocol/types/Schema.java:56-58 | numFields(): the number of slots. No contract of its own; `Schemas.LookupsFollowInput` shows it equals the length of the constructor's input, and `Schemas.GetSlot` succeeds exactly below it. |
| Codec.SchemaSizeOf | src/main/kafka/common/protocol/types/Schema.java:45-51 | sizeOf(record). No contract of its own; `CodecProofs.SchemaLayout` shows it is the sum of the slots' sizes in slot order, 0 for a schema with no fields, and `Codec.Encode` that it is the length of the record's encoding. |
| Codec.FieldsSizeFrom | src/main/kafka/common/protocol/types/Schema.java:48-49 | The sizeOf loop from slot i on. No contract of its own; `CodecProofs.EncodeFieldsIsSlots` shows it is the sum of the remaining slots' sizes. |
| Codec.SizeOf | src/main/kafka/common/protocol/types/Schema.java:49 | A field's type's sizeOf. No contract of its own; `Codec.Encode` shows it is the length of the value's encoding, and `Codec.Write` that a write advances the cursor by it. |
| Codec.SchemaRead | src/main/kafka/common/protocol/types/Schema.java:35-40 | A successful read yields a record bound to this schema with one value per field. It only moves the cursor forward over the same bytes. A failed read reports a buffer underflow, or a length or count prefix below -1. |
| Codec.ReadFieldsFrom | src/main/kafka/common/protocol/types/Schema.java:37-38 | The read loop from slot i on yields one value per remaining slot and only moves the cursor forward. A failure is a buffer underflow, or a prefix below -1. |
| Codec.Read | src/main/kafka/common/protocol/types/Schema.java:38 | A field's type reads by moving the cursor forward over the same bytes. A failure is a buffer underflow, or a length or count prefix below -1. |
| CodecProofs.SchemaWriteThenRead | src/main/kafka/common/protocol/types/Schema.java:27-40 | Round trip: for a record that conforms to the schema and fits in the buffer, reading back from where writing began yields the same record, with the cursor where the write left it. |
| CodecProofs.WriteThenRead | src/main/kafka/common/protocol/types/Schema.java:27-40 | The same round trip for a conforming value of any type, including nested schemas and arrays of schemas. |
| CodecProofs.ReadWritten | src/main/kafka/common/protocol/types/Schema.java:35-40 | Reading a value's encoding, followed by any bytes, gives back the value and stops right after the encoding. |
| CodecProofs.ReadStructWritten | src/main/kafka/common/protocol/types/Schema.java:35-40 | Reading a record's encoding gives back the record, with its values in slot order. |
| CodecProofs.ReadFieldsWritten | src/main/kafka/common/protocol/types/Schema.java:37-38 | The read loop from slot i on, over the encodings of slots i onward, returns those slots' values. |
| CodecProofs.ReadIsEncoding | src/main/kafka/common/protocol/types/Schema.java:35-40 | The converse of the round trip: whatever a read of a valid type accepts conforms to that type. The bytes it consumed are exactly that value's encoding. |
| CodecProofs.ReadStructIsEncoding | src/main/kafka/common/protocol/types/Schema.java:35-40 | A record read by a schema conforms to it, and the bytes consumed are its encoding. |
| CodecProofs.ReadFieldsIsEncoding | src/main/kafka/common/protocol/types/Schema.java:37-38 | The values the read loop accepts conform slot by slot. The bytes consumed are their encodings in slot order. |
| CodecProofs.SchemaLayout | src/main/kafka/common/protocol/types/Schema.java:45-51 | sizeOf is the sum of the slots' sizes in slot order. The bytes written are the slots' encodings concatenated in slot order. A schema with no fields has size 0 and writes nothing. |
| CodecProofs.EncodeFieldsIsSlots | src/main/kafka/common/protocol/types/Schema.java:48-49 | From slot i on, the written bytes and the size are the concatenation and the sum over the remaining slots. |
| Utils.ReadUnsignedInt | src/main/kafka/common/utils/Utils.java:40-42 | readUnsignedInt(buffer) succeeds exactly when 4 bytes remain, and is a buffer underflow otherwise. It yields the big-endian value of the next 4 bytes, which lies in [0, 2^32), and advances the position by 4. |
| Utils.ReadUnsignedIntAt | src/main/kafka/common/utils/Utils.java:51-53 | readUnsignedInt(buffer, index) succeeds exactly when 0 <= index and index + 4 <= limit, and is an index error otherwise. It yields the big-endian value of bytes index..index+3, in [0, 2^32). The position does not change. |
| Utils.WriteUnsignedInt | src/main/kafka/common/utils/Utils.java:60-62 | writetUnsignedInt succeeds exactly when 4 bytes remain, and is a buffer overflow otherwise. It writes value mod 2^32 big-endian at the position, changes no other byte and advances the position by 4. |
| Utils.WriteUnsignedIntAt | src/main/kafka/common/utils/Utils.java:70-72 | writeUnsignedInt(buffer, index, value) succeeds exactly when index..index+3 lies inside the buffer. It writes value mod 2^32 there, changes no byte outside index..index+3 and leaves the position alone. |
| Utils.ReadAfterWrite | src/main/kafka/common/utils/Utils.java:40-62 | Reading back where writetUnsignedInt wrote gives value mod 2^32, and the value itself when it is in [0, 2^32). The read ends where the write ended, 4 bytes on. |
| Utils.ReadAfterWriteAt | src/main/kafka/common/utils/Utils.java:51-72 | Reading back at the index writeUnsignedInt wrote gives value mod 2^32, and the value itself when it is in [0, 2^32). |
| Utils.MaskLow32 | src/main/kafka/common/utils/Utils.java:41 | Masking with 0xffffffffL gives the value in [0, 2^32) that agrees with the input modulo 2^32. A negative int from getInt() thus becomes its unsigned reading, and values already in range are unchanged. |
| Utils.IntCast | src/main/kafka/common/utils/Utils.java:61 | The (int) cast of the masked value is the signed 32-bit number with the same two's complement bits. |
| Utils.Crc32 | src/main/kafka/common/utils/Utils.java:79-81 | crc32(bytes) is the checksum of the whole array. It is the range form taken at offset 0 with size bytes.length. |
| Protocol.Declare | src/main/kafka/common/protocol/Protocol.java:10-14 | A catalogue constant is what the Schema constructor builds from its field list. For such a list the constructor succeeds, and the schema adopts the list slot by slot. |
| Protocol.RequestHeaderShape | src/main/kafka/common/protocol/Protocol.java:10-14 | The request header is api_key INT16, api_version INT16, correlation_id INT32 and client_id STRING, at slots 0 to 3. numFields is 4. get("client_id") is slot 3, and a name it lacks looks up as null. |
| Protocol.ResponseHeaderShape | src/main/kafka/common/protocol/Protocol.java:16-17 | The response header is the single field correlation_id INT32. |
| Protocol.MetadataRequestShape | src/main/kafka/common/protocol/Protocol.java:19-22 | The metadata request v0 is the single field topics, an array of STRING. |
| Protocol.BrokerShape | src/main/kafka/common/protocol/Protocol.java:24-27 | A broker is node_id INT32, host STRING and port INT32. |
| Protocol.BrokerLayout | src/main/kafka/common/protocol/Protocol.java:24-27 | A record of the broker's shape has size 4 + (2 + host length) + 4, where a null host adds nothing. Its bytes are the node_id, host and port encodings back to back. |
| Protocol.MetadataResponseShape | src/main/kafka/common/protocol/Protocol.java:29-43 | The metadata response nests three levels. First, arrays of brokers and of topic metadata. Each topic metadata is error code, name and an array of partition metadata. Each partition metadata is error code, id, leader and the INT32 arrays replicas and isr. |
| Protocol.ProduceRequestShape | src/main/kafka/common/protocol/Protocol.java:45-53 | The produce request v0 is acks INT16, then timeout INT32, then the topic data schema itself (not an array) in slot 2. Topic data is a name plus an array of (partition, message_set_size). |
| Protocol.ProduceResponseShape | src/main/kafka/common/protocol/Protocol.java:55-61 | The produce response v0 is an array of per-topic responses. Each response is a name plus an array of (partition INT32, error_code INT16, offset INT64). |
| Protocol.CatalogueValid | src/main/kafka/common/protocol/Protocol.java:10-61 | Every top-level schema of the catalogue is well formed all the way down. So the codec's round trip and layout lemmas apply to each of them. |
| Protocol.RequestsTable | src/main/kafka/common/protocol/Protocol.java:63-68 | REQUESTS has four rows, indexed by api key. Row 0 is the produce request versions and row 3 the metadata request versions. Rows 1 and 2 are null. Every listed version is a valid schema. |
| Protocol.TopicMetadataNames | src/main/kafka/common/protocol/Protocol.java:36-39 | The topic metadata field list has no repeated name, so its constructor call cannot throw. |
| Protocol.MetadataResponseNames | src/main/kafka/common/protocol/Protocol.java:41-43 | The metadata response field list has no repeated name. |
| Protocol.TopicProduceDataNames | src/main/kafka/common/protocol/Protocol.java:45-48 | The topic produce data field list has no repeated name. |
| Protocol.ProduceRequestNames | src/main/kafka/common/protocol/Protocol.java:50-53 | The produce request field list has no repeated name. |
| Protocol.TopicResponseNames | src/main/kafka/common/protocol/Protocol.java:57-61 | The per-topic produce response field list has no repeated name. |
| Protocol.ProduceResponseNames | src/main/kafka/common/protocol/Protocol.java:55-61 | The produce response field list has no repeated name. |

## Left out

- `Utils.utf8` (both directions) is not modelled. STRING values are held as their UTF-8 bytes.
- The CRC32 algorithm is not modelled: the `Crc32` class is not part of this model. `Utils.Crc32Range` and `Utils.Crc32` take the checksum function as a parameter. Only the delegation from `crc32(bytes)` to the range form is stated.
- The leaf types and the classes `Type`, `ArrayOf`, `Field` and `Record` are outside this model. Their wire layouts (listed above) are an assumption, and the helpers that encode them carry no source row:
  - `Codec.WriteSized`, `Codec.ReadSized`, `Codec.WriteArray`, `Codec.ReadArray`, `Codec.WriteElements`, `Codec.ReadElements`;
  - the matching lemmas in `CodecProofs`.
- A length or count below -1 fails with a negative-size error in the model. That is an assumption about how `Type` and `ArrayOf` read such a prefix.
- The record's class is not checked at run time. The casts in `write` and `sizeOf` could throw `ClassCastException`; the model instead requires the record to conform to the schema.
- `java.nio.ByteBuffer` is reduced to contents plus position, with the limit at the end of the contents. Capacity, mark, byte order switching and read-only buffers are not modelled.
- Thread safety and concurrent use of a buffer are not modelled.
- Codec.SchemaSizeOf: Java sums the slot sizes in a 32-bit `int`, which wraps, possibly to a negative number, once a record's size passes 2^31 - 1. The model returns the unbounded size instead.
- Codec.SchemaWrite: when a later slot overflows, Java has already written the earlier slots and moved the position. The model reports the overflow and keeps no partial buffer.
- Codec.SchemaRead: the same holds for underflow. The position Java leaves behind after a failed read is not modelled.
- Schemas.GetByName: requires a well-formed schema. Every schema comes from the constructor, which establishes that; Java reads its name map without that requirement.
- Protocol.BrokerLayout: is stated for any schema of the broker's shape; `Protocol.BrokerShape` shows that the broker schema has that shape.
- The version arrays and `REQUESTS` are instance fields in Java. They are modelled as constants holding the same values.
- Fields declared without a doc string are taken to carry the empty doc string.
