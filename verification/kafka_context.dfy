/**
 * The Kafka transport's per-message context: a property dictionary, exposed as `Properties`,
 * whose "KafkaPartitionKey" entry backs the `PartitionKey` property.
 */
module KafkaContext {
  import opened Wrappers

  newtype byte = x: int | 0 <= x < 256

  /** A value stored in the property dictionary. */
  datatype Value = Null | Bytes(data: seq<byte>) | OtherValue(typeName: string)

  /** The exception a cast of a non-byte-array value to `byte[]` raises. */
  datatype InvalidCast = InvalidCast(typeName: string)

  const PartitionKeyProperty := "KafkaPartitionKey"

  /** A `Dictionary<string, object>`, shared by reference. */
  class PropertyDictionary {
    var entries: map<string, Value>

    constructor()
      ensures entries == map[]
    {
      entries := map[];
    }

    /** The indexer's setter: adds or overwrites. */
    method Set(key: string, value: Value)
      modifies this
      ensures entries == old(entries)[key := value]
    {
      entries := entries[key := value];
    }

    method TryGetValue(key: string) returns (found: bool, value: Value)
      ensures found <==> key in entries
      ensures found ==> value == entries[key]
      ensures !found ==> value == Null
    {
      if key in entries {
        found, value := true, entries[key];
      } else {
        found, value := false, Null;
      }
    }
  }

  /** A `byte[]` that may be null, as stored by the setter. */
  function ValueOf(key: Option<seq<byte>>): Value
  {
    match key
    case None => Null
    case Some(data) => Bytes(data)
  }

  /** The getter's result for a dictionary state. */
  function PartitionKeyOf(entries: map<string, Value>): (r: Result<Option<seq<byte>>, InvalidCast>)
    ensures PartitionKeyProperty !in entries ==> r == Success(None)
    ensures r.Failure? <==> PartitionKeyProperty in entries && entries[PartitionKeyProperty].OtherValue?
    ensures r.Success? && r.value.Some? ==> PartitionKeyProperty in entries && entries[PartitionKeyProperty] == Bytes(r.value.value)
    ensures PartitionKeyProperty in entries && entries[PartitionKeyProperty].Bytes? ==>
      r == Success(Some(entries[PartitionKeyProperty].data))
    ensures PartitionKeyProperty in entries && entries[PartitionKeyProperty].Null? ==> r == Success(None)
  {
    if PartitionKeyProperty !in entries then Success(None)
    else
      match entries[PartitionKeyProperty]
      case Null => Success(None)
      case Bytes(data) => Success(Some(data))
      case OtherValue(t) => Failure(InvalidCast(t))
  }

  class KafkaQueueMessageContext {
    /** `_properties`, created with the context. */
    const properties: PropertyDictionary
    /** The public `Properties`: the very same dictionary object. */
    const Properties: PropertyDictionary

    ghost predicate Valid()
    {
      Properties == properties
    }

    constructor()
      ensures Valid() && fresh(properties) && properties.entries == map[]
    {
      var d := new PropertyDictionary();
      properties := d;
      Properties := d;
    }

    /** The getter: null when the entry is absent or null, the bytes when it holds a byte array, an invalid cast otherwise. */
    method GetPartitionKey() returns (r: Result<Option<seq<byte>>, InvalidCast>)
      ensures r == PartitionKeyOf(properties.entries)
    {
      var found, value := properties.TryGetValue(PartitionKeyProperty);
      if !found {
        return Success(None);
      }
      match value {
        case Null => r := Success(None);
        case Bytes(data) => r := Success(Some(data));
        case OtherValue(t) => r := Failure(InvalidCast(t));
      }
    }

    /** The setter: writes the "KafkaPartitionKey" entry and nothing else. */
    method SetPartitionKey(key: Option<seq<byte>>)
      modifies properties
      ensures properties.entries == old(properties.entries)[PartitionKeyProperty := ValueOf(key)]
    {
      properties.Set(PartitionKeyProperty, ValueOf(key));
    }
  }

  /** What the setter stores, the getter returns. */
  lemma PartitionKeyRoundTrip(entries: map<string, Value>, key: Option<seq<byte>>)
    ensures PartitionKeyOf(entries[PartitionKeyProperty := ValueOf(key)]) == Success(key)
  {
    match key
    case None =>
    case Some(data) =>
  }

  /** Writing any other property leaves the partition key as it was. */
  lemma OtherPropertiesKeepPartitionKey(entries: map<string, Value>, name: string, v: Value)
    requires name != PartitionKeyProperty
    ensures PartitionKeyOf(entries[name := v]) == PartitionKeyOf(entries)
  {
    assert PartitionKeyProperty in entries[name := v] <==> PartitionKeyProperty in entries;
  }

  /**
   * A fresh context has no partition key; after the setter the getter returns what was set,
   * and the same entry is visible through `Properties`.
   */
  method NewContextRoundTrip(key: Option<seq<byte>>) returns (before: Result<Option<seq<byte>>, InvalidCast>,
                                                           after: Result<Option<seq<byte>>, InvalidCast>,
                                                           seen: Value)
    ensures before == Success(None)
    ensures after == Success(key)
    ensures seen == ValueOf(key)
  {
    var context := new KafkaQueueMessageContext();
    before := context.GetPartitionKey();
    context.SetPartitionKey(key);
    PartitionKeyRoundTrip(map[], key);
    after := context.GetPartitionKey();
    var found;
    found, seen := context.Properties.TryGetValue(PartitionKeyProperty);
  }

  /** A value placed under "KafkaPartitionKey" through `Properties` is what the getter reads. */
  method SetThroughProperties(context: KafkaQueueMessageContext, v: Value) returns (r: Result<Option<seq<byte>>, InvalidCast>)
    requires context.Valid()
    modifies context.Properties
    ensures r == PartitionKeyOf(old(context.properties.entries)[PartitionKeyProperty := v])
  {
    context.Properties.Set(PartitionKeyProperty, v);
    r := context.GetPartitionKey();
  }
}
