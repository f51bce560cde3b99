/** kafka.common.protocol.Protocol: the message catalogue. Each schema is built by the Schema
    constructor from its field list. Every constant below is `Declare(fields)`, which is
    only well defined because no list repeats a name: none of the static initializers can throw
    the duplicate-field exception. Fields declared without a doc string carry the empty doc. */
module Protocol {
  import opened Results
  import opened BigEndian
  import opened Types
  import opened Schemas
  import opened Codec
  import opened CodecProofs

  /** A static schema constant: what the constructor builds from a field list with no repeated
      name, which is every list in the catalogue. */
  function Declare(fs: seq<Field>): (s: Schema)
    requires DistinctNames(fs)
    ensures NewSchema(fs) == Ok(s)
    ensures WellFormed(s) && Adopts(s, fs)
  {
    NewSchema(fs).value
  }

  // ---------------------------------------------------------------- the catalogue

  const REQUEST_HEADER_FIELDS: seq<Field> := [
    Unattached("api_key", Int16, "The id of the request type."),
    Unattached("api_version", Int16, "The version of the API."),
    Unattached("correlation_id", Int32, "A user-supplied integer value that will be passed back with the response"),
    Unattached("client_id", Str, "A user specified identifier for the client making the request.")
  ]
  const REQUEST_HEADER: Schema := Declare(REQUEST_HEADER_FIELDS)

  const RESPONSE_HEADER_FIELDS: seq<Field> := [
    Unattached("correlation_id", Int32, "The user-supplied value passed in with the request")
  ]
  const RESPONSE_HEADER: Schema := Declare(RESPONSE_HEADER_FIELDS)

  const METADATA_REQUEST_V0_FIELDS: seq<Field> := [
    Unattached("topics", ArrayOf(Str),
               "An array of topics to fetch metadata for. If no topics are specified fetch metadtata for all topics.")
  ]
  const METADATA_REQUEST_V0: Schema := Declare(METADATA_REQUEST_V0_FIELDS)

  const BROKER_FIELDS: seq<Field> := [
    Unattached("node_id", Int32, "The broker id."),
    Unattached("host", Str, "The hostname of the broker."),
    Unattached("port", Int32, "The port on which the broker accepts requests.")
  ]
  const BROKER: Schema := Declare(BROKER_FIELDS)

  const PARTITION_METADATA_V0_FIELDS: seq<Field> := [
    Unattached("partition_error_code", Int16, "The error code for the partition, if any."),
    Unattached("partition_id", Int32, "The id of the partition."),
    Unattached("leader", Int32, "The id of the broker acting as leader for this partition."),
    Unattached("replicas", ArrayOf(Int32), "The set of all nodes that host this partition."),
    Unattached("isr", ArrayOf(Int32), "The set of nodes that are in sync with the leader for this partition.")
  ]
  const PARTITION_METADATA_V0: Schema := Declare(PARTITION_METADATA_V0_FIELDS)

  const TOPIC_METADATA_V0_FIELDS: seq<Field> := [
    Unattached("topic_error_code", Int16, "The error code for the given topic."),
    Unattached("topic_name", Str, "The name of the topic"),
    Unattached("partition_metadata", ArrayOf(Struct(PARTITION_METADATA_V0)), "Metadata for each partition of the topic.")
  ]
  const TOPIC_METADATA_V0: Schema := (TopicMetadataNames(); Declare(TOPIC_METADATA_V0_FIELDS))

  lemma TopicMetadataNames()
    ensures DistinctNames(TOPIC_METADATA_V0_FIELDS)
  {
    hide Declare, NewSchema;
  }

  const METADATA_RESPONSE_V0_FIELDS: seq<Field> := [
    Unattached("brokers", ArrayOf(Struct(BROKER)), "Host and port information for all brokers."),
    Unattached("topic_metadata", ArrayOf(Struct(TOPIC_METADATA_V0)), "")
  ]
  const METADATA_RESPONSE_V0: Schema := (MetadataResponseNames(); Declare(METADATA_RESPONSE_V0_FIELDS))

  lemma MetadataResponseNames()
    ensures DistinctNames(METADATA_RESPONSE_V0_FIELDS)
  {
    hide Declare, NewSchema;
  }

  /** The anonymous element schema of TOPIC_PRODUCE_DATA_V0's `data` array. */
  const PARTITION_DATA_FIELDS: seq<Field> := [
    Unattached("partition", Int32, ""),
    Unattached("message_set_size", Int32, "")
  ]
  const PARTITION_DATA: Schema := Declare(PARTITION_DATA_FIELDS)

  const TOPIC_PRODUCE_DATA_V0_FIELDS: seq<Field> := [
    Unattached("topic_name", Str, ""),
    Unattached("data", ArrayOf(Struct(PARTITION_DATA)), "")
  ]
  const TOPIC_PRODUCE_DATA_V0: Schema := (TopicProduceDataNames(); Declare(TOPIC_PRODUCE_DATA_V0_FIELDS))

  lemma TopicProduceDataNames()
    ensures DistinctNames(TOPIC_PRODUCE_DATA_V0_FIELDS)
  {
    hide Declare, NewSchema;
  }

  const PRODUCE_REQUEST_V0_FIELDS: seq<Field> := [
    Unattached("acks", Int16, "The number of nodes that should replicate the produce before returning. -1 indicates the full ISR."),
    Unattached("timeout", Int32, "The time to await a response in ms."),
    Unattached("topic_data", Struct(TOPIC_PRODUCE_DATA_V0), "")
  ]
  const PRODUCE_REQUEST_V0: Schema := (ProduceRequestNames(); Declare(PRODUCE_REQUEST_V0_FIELDS))

  lemma ProduceRequestNames()
    ensures DistinctNames(PRODUCE_REQUEST_V0_FIELDS)
  {
    hide Declare, NewSchema;
  }

  /** The anonymous element schemas of PRODUCE_RESPONSE_V0, innermost first. */
  const PARTITION_RESPONSE_FIELDS: seq<Field> := [
    Unattached("partition", Int32, ""),
    Unattached("error_code", Int16, ""),
    Unattached("offset", Int64, "")
  ]
  const PARTITION_RESPONSE: Schema := Declare(PARTITION_RESPONSE_FIELDS)

  const TOPIC_RESPONSE_FIELDS: seq<Field> := [
    Unattached("topic_name", Str, ""),
    Unattached("partition_response", ArrayOf(Struct(PARTITION_RESPONSE)), "")
  ]
  const TOPIC_RESPONSE: Schema := (TopicResponseNames(); Declare(TOPIC_RESPONSE_FIELDS))

  lemma TopicResponseNames()
    ensures DistinctNames(TOPIC_RESPONSE_FIELDS)
  {
    hide Declare, NewSchema;
  }

  const PRODUCE_RESPONSE_V0_FIELDS: seq<Field> := [
    Unattached("responses", ArrayOf(Struct(TOPIC_RESPONSE)), "")
  ]
  const PRODUCE_RESPONSE_V0: Schema := (ProduceResponseNames(); Declare(PRODUCE_RESPONSE_V0_FIELDS))

  lemma ProduceResponseNames()
    ensures DistinctNames(PRODUCE_RESPONSE_V0_FIELDS)
  {
    hide Declare, NewSchema;
  }

  /** The version lists, newest last, and the table of request versions indexed by api key. A
      null row is an api key with no request schema. */
  const METADATA_REQUEST: seq<Schema> := [METADATA_REQUEST_V0]
  const METADATA_RESPONSE: seq<Schema> := [METADATA_RESPONSE_V0]
  const PRODUCE_REQUEST: seq<Schema> := [PRODUCE_REQUEST_V0]
  const REQUESTS: seq<Option<seq<Schema>>> := [Some(PRODUCE_REQUEST), None, None, Some(METADATA_REQUEST)]

  // ---------------------------------------------------------------- shapes

  /** `s` has exactly the listed slots, in order: slot i carries index i, name `names[i]` and
      type `types[i]`. */
  predicate Shape(s: Schema, names: seq<string>, types: seq<Type>) {
    && |s.fields| == |names| == |types|
    && forall i :: 0 <= i < |s.fields| ==>
         s.fields[i].index == i && s.fields[i].name == names[i] && s.fields[i].tp == types[i]
  }

  /** A declared schema has the shape of its field list. */
  lemma DeclaredShape(fs: seq<Field>, names: seq<string>, types: seq<Type>)
    requires DistinctNames(fs) && |fs| == |names| == |types|
    requires forall i :: 0 <= i < |fs| ==> fs[i].name == names[i] && fs[i].tp == types[i]
    ensures Shape(Declare(fs), names, types)
    ensures NumFields(Declare(fs)) == |fs|
  {
    hide NewSchema;
  }

  /** The request header: api_key, api_version, correlation_id, client_id, in that order. A
      name it does not have looks up as null. */
  lemma RequestHeaderShape()
    ensures Shape(REQUEST_HEADER, ["api_key", "api_version", "correlation_id", "client_id"], [Int16, Int16, Int32, Str])
    ensures NumFields(REQUEST_HEADER) == 4
    ensures GetByName(REQUEST_HEADER, "client_id") == Some(Field(3, "client_id", Str, REQUEST_HEADER_FIELDS[3].doc))
    ensures GetByName(REQUEST_HEADER, "topics") == None
  {
    hide NewSchema, Declare, GetByName, GetSlot;
    DeclaredShape(REQUEST_HEADER_FIELDS, ["api_key", "api_version", "correlation_id", "client_id"], [Int16, Int16, Int32, Str]);
    LookupsFollowInput(REQUEST_HEADER_FIELDS, "client_id");
    LookupsFollowInput(REQUEST_HEADER_FIELDS, "topics");
  }

  /** The response header is the one INT32 correlation_id. */
  lemma ResponseHeaderShape()
    ensures Shape(RESPONSE_HEADER, ["correlation_id"], [Int32])
    ensures NumFields(RESPONSE_HEADER) == 1
  {
    hide NewSchema, Declare;
    DeclaredShape(RESPONSE_HEADER_FIELDS, ["correlation_id"], [Int32]);
  }

  /** A broker is node_id, host and port. */
  lemma BrokerShape()
    ensures Shape(BROKER, ["node_id", "host", "port"], [Int32, Str, Int32])
  {
    hide NewSchema, Declare;
    DeclaredShape(BROKER_FIELDS, ["node_id", "host", "port"], [Int32, Str, Int32]);
  }

  /** By the schema size and write rules a broker record is its INT32, its STRING and its INT32
      back to back: ten bytes plus the host's length, which a null host does not add. Stated
      for any schema of BROKER's shape, which BrokerShape shows BROKER has. */
  lemma BrokerLayout(s: Schema, r: Record)
    requires Shape(s, ["node_id", "host", "port"], [Int32, Str, Int32]) && RecordConforms(s, r)
    ensures SchemaSizeOf(s, r) == SizeOf(Int32, r.values[0]) + SizeOf(Str, r.values[1]) + SizeOf(Int32, r.values[2])
    ensures SchemaSizeOf(s, r) == 10 + (if r.values[1].s.Some? then |r.values[1].s.value| else 0)
    ensures Encode(Struct(s), RecordV(r))
         == Encode(Int32, r.values[0]) + Encode(Str, r.values[1]) + Encode(Int32, r.values[2])
  {
    hide EncodeFieldsFrom, FieldsSizeFrom, RecordConforms;
    FieldsCons(s, r, 0);
    FieldsCons(s, r, 1);
    FieldsCons(s, r, 2);
    FieldsNil(s, r);
  }

  /** A metadata request is the array of topic names. */
  lemma MetadataRequestShape()
    ensures Shape(METADATA_REQUEST_V0, ["topics"], [ArrayOf(Str)])
  {
    hide NewSchema, Declare;
    DeclaredShape(METADATA_REQUEST_V0_FIELDS, ["topics"], [ArrayOf(Str)]);
  }

  /** The metadata response nests three levels: an array of topic metadata, each with an array
      of partition metadata, each with the INT32 arrays replicas and isr. */
  lemma MetadataResponseShape()
    ensures Shape(METADATA_RESPONSE_V0, ["brokers", "topic_metadata"],
                  [ArrayOf(Struct(BROKER)), ArrayOf(Struct(TOPIC_METADATA_V0))])
    ensures Shape(TOPIC_METADATA_V0, ["topic_error_code", "topic_name", "partition_metadata"],
                  [Int16, Str, ArrayOf(Struct(PARTITION_METADATA_V0))])
    ensures Shape(PARTITION_METADATA_V0, ["partition_error_code", "partition_id", "leader", "replicas", "isr"],
                  [Int16, Int32, Int32, ArrayOf(Int32), ArrayOf(Int32)])
  {
    hide NewSchema, Declare;
    DeclaredShape(METADATA_RESPONSE_V0_FIELDS, ["brokers", "topic_metadata"],
                  [ArrayOf(Struct(BROKER)), ArrayOf(Struct(TOPIC_METADATA_V0))]);
    DeclaredShape(TOPIC_METADATA_V0_FIELDS, ["topic_error_code", "topic_name", "partition_metadata"],
                  [Int16, Str, ArrayOf(Struct(PARTITION_METADATA_V0))]);
    DeclaredShape(PARTITION_METADATA_V0_FIELDS, ["partition_error_code", "partition_id", "leader", "replicas", "isr"],
                  [Int16, Int32, Int32, ArrayOf(Int32), ArrayOf(Int32)]);
  }

  /** The produce request holds the topic data itself, not an array of it, in slot 2, after
      acks and timeout; the topic data's partitions are an array of (partition, message_set_size). */
  lemma ProduceRequestShape()
    ensures Shape(PRODUCE_REQUEST_V0, ["acks", "timeout", "topic_data"], [Int16, Int32, Struct(TOPIC_PRODUCE_DATA_V0)])
    ensures Shape(TOPIC_PRODUCE_DATA_V0, ["topic_name", "data"], [Str, ArrayOf(Struct(PARTITION_DATA))])
    ensures Shape(PARTITION_DATA, ["partition", "message_set_size"], [Int32, Int32])
  {
    hide NewSchema, Declare;
    DeclaredShape(PRODUCE_REQUEST_V0_FIELDS, ["acks", "timeout", "topic_data"], [Int16, Int32, Struct(TOPIC_PRODUCE_DATA_V0)]);
    DeclaredShape(TOPIC_PRODUCE_DATA_V0_FIELDS, ["topic_name", "data"], [Str, ArrayOf(Struct(PARTITION_DATA))]);
    DeclaredShape(PARTITION_DATA_FIELDS, ["partition", "message_set_size"], [Int32, Int32]);
  }

  /** The produce response: per topic, its name and per partition the partition, error code
      and offset. */
  lemma ProduceResponseShape()
    ensures Shape(PRODUCE_RESPONSE_V0, ["responses"], [ArrayOf(Struct(TOPIC_RESPONSE))])
    ensures Shape(TOPIC_RESPONSE, ["topic_name", "partition_response"], [Str, ArrayOf(Struct(PARTITION_RESPONSE))])
    ensures Shape(PARTITION_RESPONSE, ["partition", "error_code", "offset"], [Int32, Int16, Int64])
  {
    hide NewSchema, Declare;
    DeclaredShape(PRODUCE_RESPONSE_V0_FIELDS, ["responses"], [ArrayOf(Struct(TOPIC_RESPONSE))]);
    DeclaredShape(TOPIC_RESPONSE_FIELDS, ["topic_name", "partition_response"], [Str, ArrayOf(Struct(PARTITION_RESPONSE))]);
    DeclaredShape(PARTITION_RESPONSE_FIELDS, ["partition", "error_code", "offset"], [Int32, Int16, Int64]);
  }

  // ---------------------------------------------------------------- validity and the request table

  /** A well-formed schema whose slot types are all valid is a valid type. */
  lemma ValidStruct(s: Schema, names: seq<string>, types: seq<Type>)
    requires WellFormed(s) && Shape(s, names, types)
    requires forall i :: 0 <= i < |types| ==> ValidType(types[i])
    ensures ValidType(Struct(s))
  {
  }

  /** Every catalogue schema is well formed all the way down, so the codec's round trip and
      encoding lemmas hold for every message the catalogue defines. */
  lemma CatalogueValid()
    ensures ValidType(Struct(REQUEST_HEADER)) && ValidType(Struct(RESPONSE_HEADER))
    ensures ValidType(Struct(METADATA_REQUEST_V0)) && ValidType(Struct(METADATA_RESPONSE_V0))
    ensures ValidType(Struct(PRODUCE_REQUEST_V0)) && ValidType(Struct(PRODUCE_RESPONSE_V0))
  {
    hide NewSchema, Declare, ValidType;
    HeadersValid();
    MetadataValid();
    ProduceValid();
  }

  lemma HeadersValid()
    ensures ValidType(Struct(REQUEST_HEADER)) && ValidType(Struct(RESPONSE_HEADER))
  {
    hide NewSchema, Declare, GetByName;
    RequestHeaderShape();
    ValidStruct(REQUEST_HEADER, ["api_key", "api_version", "correlation_id", "client_id"], [Int16, Int16, Int32, Str]);
    ResponseHeaderShape();
    ValidStruct(RESPONSE_HEADER, ["correlation_id"], [Int32]);
  }

  lemma MetadataValid()
    ensures ValidType(Struct(METADATA_REQUEST_V0)) && ValidType(Struct(METADATA_RESPONSE_V0))
  {
    hide NewSchema, Declare;
    MetadataRequestShape();
    ValidStruct(METADATA_REQUEST_V0, ["topics"], [ArrayOf(Str)]);
    BrokerShape();
    ValidStruct(BROKER, ["node_id", "host", "port"], [Int32, Str, Int32]);
    MetadataResponseShape();
    ValidStruct(PARTITION_METADATA_V0, ["partition_error_code", "partition_id", "leader", "replicas", "isr"],
                [Int16, Int32, Int32, ArrayOf(Int32), ArrayOf(Int32)]);
    ValidStruct(TOPIC_METADATA_V0, ["topic_error_code", "topic_name", "partition_metadata"],
                [Int16, Str, ArrayOf(Struct(PARTITION_METADATA_V0))]);
    ValidStruct(METADATA_RESPONSE_V0, ["brokers", "topic_metadata"],
                [ArrayOf(Struct(BROKER)), ArrayOf(Struct(TOPIC_METADATA_V0))]);
  }

  lemma ProduceValid()
    ensures ValidType(Struct(PRODUCE_REQUEST_V0)) && ValidType(Struct(PRODUCE_RESPONSE_V0))
  {
    hide NewSchema, Declare;
    ProduceRequestShape();
    ValidStruct(PARTITION_DATA, ["partition", "message_set_size"], [Int32, Int32]);
    ValidStruct(TOPIC_PRODUCE_DATA_V0, ["topic_name", "data"], [Str, ArrayOf(Struct(PARTITION_DATA))]);
    ValidStruct(PRODUCE_REQUEST_V0, ["acks", "timeout", "topic_data"], [Int16, Int32, Struct(TOPIC_PRODUCE_DATA_V0)]);
    ProduceResponseShape();
    ValidStruct(PARTITION_RESPONSE, ["partition", "error_code", "offset"], [Int32, Int16, Int64]);
    ValidStruct(TOPIC_RESPONSE, ["topic_name", "partition_response"], [Str, ArrayOf(Struct(PARTITION_RESPONSE))]);
    ValidStruct(PRODUCE_RESPONSE_V0, ["responses"], [ArrayOf(Struct(TOPIC_RESPONSE))]);
  }

  /** REQUESTS is indexed by api key: key 0 lists the produce request versions and key 3 the
      metadata request versions, keys 1 and 2 have none, and every listed version is a valid
      schema. */
  lemma RequestsTable()
    ensures |REQUESTS| == 4
    ensures REQUESTS[0] == Some([PRODUCE_REQUEST_V0]) && REQUESTS[3] == Some([METADATA_REQUEST_V0])
    ensures REQUESTS[1] == None && REQUESTS[2] == None
    ensures forall k, v :: 0 <= k < |REQUESTS| && REQUESTS[k].Some? && 0 <= v < |REQUESTS[k].value| ==>
      ValidType(Struct(REQUESTS[k].value[v]))
  {
    hide NewSchema, Declare, ValidType;
    CatalogueValid();
  }
}
