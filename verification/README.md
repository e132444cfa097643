# Polymorphic entity codecs of the MessagePack experiment, in Dafny

This project models the codec layer of the MessagePack experiment. That layer carries a
polymorphic list of `Thing`s (the `ElementDefinition` and `Parameter` entities of an
engineering model) between client and server in two wire formats. It also models the
server-side negotiation that picks the format.

- **Entity model** (`model.dfy`): `Thing`, `ElementDefinition` and `Parameter`, each
  with its `ClassKind` computed at construction. `Valid` is the invariant the
  constructors establish: the stored kind is the one computed from the concrete type.
- **Aggregation** (`payload.dfy`, `payload_factory.dfy`): the `Payload` record and
  `PayloadFactory`.
  - Grouping dispatches on `ClassKind`, keeping only the two known kinds.
  - Flattening lists the ElementDefinitions first, then the Parameters.
- **MessagePack path.**
  - `msgpack.dfy` models the reader and writer as a stream of tokens. The reader is a
    position plus a depth counter.
  - `element_definition_formatter.dfy` and `parameter_formatter.dfy` model the two
    hand-written formatters. Each writes a fixed-length array. The reader loops over
    slots and skips any slot it does not know.
  - `thing_resolver.dfy` models the type-to-formatter table and its per-type memo.
  - `serializer.dfy` models the composite resolver chain and the payload encoding. It
    also composes `SerializeToStream` and `Deserialize`.
- **JSON path** (`json.dfy`): the tree `JsonSerializer` writes and the property-by-property
  reader.
- **Negotiation** (`negotiator.dfy`): `CanHandle` on the accept text, and `Handle`'s type
  guard and content type.
- **Supporting modules**: `primitives.dfy` and `hex.dfy` model GUIDs (byte layout and
  text layout), doubles and timestamps. `seqs.dfy` states where a run of tokens occurs
  in a stream. `wrappers.dfy` holds `Option` and `Result`.

Exceptions are modelled as `Err` values of `Result`. C# `null` is `None` of `Option`. I/O,
clocks and cancellation are parameters or left out.

`Payload`'s properties carry string keys (`[Key("Created")]` and so on), so the MessagePack
library writes a payload as a map of three string-keyed members, and reads the members in
any order. Both list properties have public setters and may be null: the list formatter
writes and reads a null list as nil, and only `PayloadFactory.Create(Payload)` rejects it,
through `AddRange(null)`.

## Model

| member | source | states |
|---|---|---|
| Model.ComputeCurrentClassKind | messagepacktest.model/Thing.cs:66-76 | succeeds exactly when the enumeration has a member named like the type, and then returns that member; otherwise an invalid-operation error |
| Model.NewElementDefinition | messagepacktest.model/ElementDefinition.cs:34-66 | a fresh ElementDefinition is well-formed with an empty identifier, unset name, description and Aliases, and an empty parameter list |
| Model.NewElementDefinitionWithIid | messagepacktest.model/ElementDefinition.cs:44-46 | the identifier constructor gives the same defaults with the given identifier |
| Model.NewParameter | messagepacktest.model/Parameter.cs:33-55 | a fresh Parameter is well-formed with an empty identifier, unset name and value zero |
| Model.NewParameterWithIid | messagepacktest.model/Parameter.cs:43-45 | the identifier constructor gives the same defaults with the given identifier |
| Model.NewOtherThing | messagepacktest.model/Thing.cs:33-47 | constructing a Thing of another type succeeds exactly when its kind resolves; the kind's name is the type's name, and it is well-formed unless it borrows a core type's name |
| Model.SetIid | messagepacktest.model/Thing.cs:53-58 | the Iid setter changes only the identifier: the readonly kind and the type stay, and well-formedness is kept |
| Payloads.NewPayload | MessagePackTest.MessagePack/Payload.cs:40-53 | a fresh payload has both lists present and empty, and the default timestamp |
| PayloadFactory.Group | MessagePackTest.MessagePack/PayloadFactory.cs:56-67 | the grouped lists hold only entities whose kind is that of their list; a Thing whose kind disagrees with its type is an invalid cast |
| PayloadFactory.Create | MessagePackTest.MessagePack/PayloadFactory.cs:44-70 | a null list is an argument error; a list of well-formed Things always succeeds; the payload carries the given creation time and two present, kind-homogeneous lists |
| PayloadFactory.Flatten | MessagePackTest.MessagePack/PayloadFactory.cs:81-93 | a null payload is an argument error naming the payload; otherwise it succeeds exactly when neither list is null, a null list being an argument error naming the collection, and the result is the ElementDefinitions followed by the Parameters |
| PayloadFactory.GroupByKind | MessagePackTest.MessagePack/PayloadFactory.cs:56-67 | on well-formed Things, grouping yields exactly the ElementDefinitions and the Parameters of the input, each in input order |
| PayloadFactory.DropsOtherKinds | MessagePackTest.MessagePack/PayloadFactory.cs:58-66 | a Thing of any other kind leaves the grouping unchanged |
| PayloadFactory.FiltersDistribute | MessagePackTest.MessagePack/PayloadFactory.cs:56-67 | the per-kind filters distribute over concatenation |
| PayloadFactory.FiltersOfFlattened | MessagePackTest.MessagePack/PayloadFactory.cs:88-90 | filtering a flattened list gives back the two lists it was made from |
| PayloadFactory.GroupThenFlatten | MessagePackTest.MessagePack/PayloadFactory.cs:44-93 | grouping then flattening gives every ElementDefinition in input order, then every Parameter in input order |
| PayloadFactory.GroupThenFlattenOrdered | MessagePackTest.MessagePack/PayloadFactory.cs:44-93 | a list already ordered ElementDefinitions-first comes back unchanged |
| PayloadFactory.FlattenedValid | MessagePackTest.MessagePack/PayloadFactory.cs:88-90 | the Things a kind-homogeneous payload flattens to are well-formed |
| PayloadFactory.FlattenThenGroup | MessagePackTest.MessagePack/PayloadFactory.cs:44-93 | flattening a kind-homogeneous payload succeeds exactly when neither list is null, and grouping the result then reproduces the payload |
| ThingResolver.GetFormatterHelper | MessagePackTest.MessagePack/ThingResolver.cs:93-103 | the ElementDefinition type gets its bespoke formatter, the Parameter type gets its own, and every other type gets null, the fallback signal |
| ThingResolver.TableKeys | MessagePackTest.MessagePack/ThingResolver.cs:78-82 | the table has exactly the two entity types as keys |
| ThingResolver.FormatterMatchesKind | MessagePackTest.MessagePack/ThingResolver.cs:78-103 | for a well-formed Thing the table answers exactly for the two entity kinds, with the formatter of the Thing's own kind |
| ThingResolver.GetFormatter | MessagePackTest.MessagePack/ThingResolver.cs:52-69 | the memoised answer is always the table's answer; the memo gains the requested type and keeps every earlier entry |
| ThingResolver.LookupAll | MessagePackTest.MessagePack/ThingResolver.cs:57-69 | after a run of requests every requested type is memoised, earlier entries unchanged, and the memo stays consistent with the table |
| ThingResolver.RepeatedLookupsAgree | MessagePackTest.MessagePack/ThingResolver.cs:57-69 | a repeated request gives the first answer and leaves the memo as it was, whatever was requested in between |
| MsgPack.DepthStep | MessagePackTest.MessagePack/ElementDefinitionFormatter.cs:95 | entering a nesting level succeeds exactly below the maximum depth and increases the depth by one |
| MsgPack.ReadGuid | MessagePackTest.MessagePack/ElementDefinitionFormatter.cs:105-106 | a GUID is read from 16 bytes of binary data; nil has no value to convert and any other length is an argument error |
| MsgPack.ReadWrittenGuid | MessagePackTest.MessagePack/ElementDefinitionFormatter.cs:57 | the GUID written as its byte array reads back |
| MsgPack.ReadWrittenStrings | MessagePackTest.MessagePack/ElementDefinitionFormatter.cs:110-115 | strings written one after another read back in order, nulls included |
| MsgPack.SkipEncoded | MessagePackTest.MessagePack/ElementDefinitionFormatter.cs:134-136 | skipping consumes exactly one complete encoded value, whatever follows it |
| MsgPack.SkipAt | MessagePackTest.MessagePack/ParameterFormatter.cs:104-106 | skipping at any position where an encoded value occurs ends right after it |
| Primitives.BytesRoundTrip | MessagePackTest.MessagePack/ElementDefinitionFormatter.cs:57 | a GUID built from its own byte array is the same GUID |
| Primitives.FromBytes | MessagePackTest.MessagePack/ElementDefinitionFormatter.cs:106 | a GUID is built exactly from 16 bytes and gives them back; anything else is an argument error |
| Primitives.ToText | MessagePackTest.MessagePack/JsonSerializer.cs:69 | a GUID's text is 36 characters with dashes at 8, 13, 18 and 23 |
| Primitives.TextRoundTrip | MessagePackTest.MessagePack/JsonSerializer.cs:154 | parsing a GUID's text gives back the GUID |
| Primitives.DateRoundTrip | MessagePackTest.MessagePack/JsonSerializer.cs:141-144 | parsing a timestamp's text gives back the timestamp |
| Hex.ParseHexText | MessagePackTest.MessagePack/JsonSerializer.cs:154 | parsing the hexadecimal text of bytes gives back the bytes |
| ElementDefinitionFormatter.Serialize | MessagePackTest.MessagePack/ElementDefinitionFormatter.cs:49-74 | a null entity is an argument error; unset Aliases fail with a null reference; otherwise the encoding is the five-slot array |
| ElementDefinitionFormatter.SlotsAreWire | MessagePackTest.MessagePack/ElementDefinitionFormatter.cs:56-71 | the header followed by the five slots written in order is the whole encoding |
| ElementDefinitionFormatter.ReadSlot | MessagePackTest.MessagePack/ElementDefinitionFormatter.cs:102-137 | each pass consumes at least one token at the same depth and leaves a well-formed entity; slots past the fifth change nothing |
| ElementDefinitionFormatter.ReadSlots | MessagePackTest.MessagePack/ElementDefinitionFormatter.cs:99-138 | the loop yields an entity exactly when the count is positive, well-formed, and stays at the same depth |
| ElementDefinitionFormatter.Deserialize | MessagePackTest.MessagePack/ElementDefinitionFormatter.cs:88-142 | end of stream is an error; nil is no entity; a value at the maximum depth is rejected; otherwise it consumes input, returns to the entry depth and yields a well-formed entity |
| MsgPack.LeaveArray | MessagePackTest.MessagePack/ElementDefinitionFormatter.cs:140-141 | leaving a formatter's array keeps the slot loop's outcome and decreases the depth by one; a failed loop stays failed |
| ElementDefinitionFormatter.DecodeArrayHeader | MessagePackTest.MessagePack/ElementDefinitionFormatter.cs:95-99 | below the limit, an array header enters one level and hands its count to the slot loop |
| ElementDefinitionFormatter.ReadWrittenSlot | MessagePackTest.MessagePack/ElementDefinitionFormatter.cs:102-133 | reading one written slot advances the partially built entity by exactly that slot's field |
| ElementDefinitionFormatter.ReadWrittenSlots | MessagePackTest.MessagePack/ElementDefinitionFormatter.cs:99-138 | the first k written slots read back as the entity built from those k fields, behind any header count of at least k |
| ElementDefinitionFormatter.DecodeSlotPrefix | MessagePackTest.MessagePack/ElementDefinitionFormatter.cs:88-142 | a header of k at most 5 and the first k slots decode to nothing for k = 0, and otherwise to the entity with the later fields at their constructor defaults |
| ElementDefinitionFormatter.RoundTrip | MessagePackTest.MessagePack/ElementDefinitionFormatter.cs:49-142 | decoding what Serialize wrote, wherever it sits in a stream, gives back the entity and ends right after the encoding at the entry depth |
| ElementDefinitionFormatter.SkipsTrailingSlots | MessagePackTest.MessagePack/ElementDefinitionFormatter.cs:134-136 | slots past the fifth are skipped one complete value each, leaving the entity unchanged |
| ElementDefinitionFormatter.ForwardCompatible | MessagePackTest.MessagePack/ElementDefinitionFormatter.cs:99-138 | an encoding with extra trailing slots decodes to the same entity and consumes the extra values |
| ParameterFormatter.Serialize | MessagePackTest.MessagePack/ParameterFormatter.cs:49-63 | a null Parameter is an argument error; otherwise the encoding is the three-slot array |
| ParameterFormatter.SlotsAreWire | MessagePackTest.MessagePack/ParameterFormatter.cs:56-60 | the header followed by the three slots written in order is the whole encoding |
| ParameterFormatter.ReadSlot | MessagePackTest.MessagePack/ParameterFormatter.cs:91-107 | each pass consumes at least one token at the same depth and leaves a well-formed entity; slots past the third change nothing |
| ParameterFormatter.ReadSlots | MessagePackTest.MessagePack/ParameterFormatter.cs:88-108 | the loop yields an entity exactly when the count is positive, well-formed, and stays at the same depth |
| ParameterFormatter.Deserialize | MessagePackTest.MessagePack/ParameterFormatter.cs:77-113 | end of stream is an error; nil is no entity; a value at the maximum depth is rejected; otherwise it consumes input, returns to the entry depth and yields a well-formed entity |
| ParameterFormatter.DecodeArrayHeader | MessagePackTest.MessagePack/ParameterFormatter.cs:84-88 | below the limit, an array header enters one level and hands its count to the slot loop |
| ParameterFormatter.ReadWrittenSlot | MessagePackTest.MessagePack/ParameterFormatter.cs:91-103 | reading one written slot advances the partially built Parameter by exactly that slot's field |
| ParameterFormatter.ReadWrittenSlots | MessagePackTest.MessagePack/ParameterFormatter.cs:88-108 | the first k written slots read back as the Parameter built from those k fields |
| ParameterFormatter.DecodeSlotPrefix | MessagePackTest.MessagePack/ParameterFormatter.cs:77-113 | a header of k at most 3 and the first k slots decode to nothing for k = 0, and otherwise to the Parameter with the later fields at their defaults |
| ParameterFormatter.RoundTrip | MessagePackTest.MessagePack/ParameterFormatter.cs:49-113 | decoding what Serialize wrote, wherever it sits in a stream, gives back the Parameter and ends right after the encoding at the entry depth |
| ParameterFormatter.SkipsTrailingSlots | MessagePackTest.MessagePack/ParameterFormatter.cs:104-106 | slots past the third are skipped one complete value each, leaving the Parameter unchanged |
| ParameterFormatter.ForwardCompatible | MessagePackTest.MessagePack/ParameterFormatter.cs:88-108 | an encoding with extra trailing slots decodes to the same Parameter and consumes the extra values |
| Serializer.Resolve | MessagePackTest.MessagePack/Serializer.cs:56-58 | the composite answers exactly when some resolver of the chain does, with the answer of the first one that does |
| Serializer.BespokeFirst | MessagePackTest.MessagePack/Serializer.cs:81-85 | with the serializer's options the Thing resolver decides whenever it answers, the two entity types always get their bespoke formatters, and every other type gets the standard resolver's answer |
| Serializer.WriteEDElements | MessagePackTest.MessagePack/ElementDefinitionFormatter.cs:56-71 | a list of ElementDefinitions is written exactly when all have Aliases set, and then as their encodings in order; otherwise a null reference |
| Serializer.WriteEDList | MessagePackTest.MessagePack/Payload.cs:46-47 | the list member is written as nil when null, and otherwise as a header and its elements, failing exactly when an entity lacks Aliases |
| Serializer.EncodePayload | MessagePackTest.MessagePack/Payload.cs:34-54 | the payload is written as a map of its three members, a null list as nil, and fails exactly when a present ElementDefinition list has an entity without Aliases |
| Serializer.ReadElementDefinitions | MessagePackTest.MessagePack/Payload.cs:46-47 | a nil list is read as a null list and consumes one token; the maximum depth is enforced for an array; the elements read are well-formed |
| Serializer.ReadMember | MessagePackTest.MessagePack/Payload.cs:34-54 | one member of the payload map consumes input at the same depth and keeps the lists kind-homogeneous; a key that is not a string is a format error |
| Serializer.DecodePayload | MessagePackTest.MessagePack/Payload.cs:34-54 | end of stream is an error; nil is no payload; the maximum depth is enforced; a decoded payload is kind-homogeneous |
| Serializer.LeaveMap | MessagePackTest.MessagePack/Payload.cs:34-54 | leaving the map yields the members read as the payload and decreases the depth by one |
| Serializer.DecodeMapHeader | MessagePackTest.MessagePack/Payload.cs:34-54 | below the limit, a map header enters one level and hands its count to the member loop, starting from a fresh payload |
| Serializer.SkipsUnknownMember | MessagePackTest.MessagePack/Payload.cs:34-54 | a member under an undeclared key is skipped whole and changes nothing |
| Serializer.ReadWrittenEDs | MessagePackTest.MessagePack/ElementDefinitionFormatter.cs:49-142 | ElementDefinitions written one after another are read back in order |
| Serializer.ReadWrittenParams | MessagePackTest.MessagePack/ParameterFormatter.cs:49-113 | Parameters written one after another are read back in order |
| Serializer.ReadWrittenMembers | MessagePackTest.MessagePack/Payload.cs:40-53 | the three written members, read from a fresh payload, give back the payload |
| Serializer.DecodeWrittenPayload | MessagePackTest.MessagePack/Payload.cs:34-54 | a written payload, null lists included, is read back whole, using one nesting level for the map and one per list |
| Serializer.SerializeToStream | MessagePackTest.MessagePack/Serializer.cs:54-65 | a null list is an argument error; for well-formed Things the write succeeds exactly when every ElementDefinition has Aliases set |
| Serializer.Deserialize | MessagePackTest.MessagePack/Serializer.cs:79-92 | an empty stream is an error; a nil payload fails when flattened; every Thing returned is well-formed |
| Serializer.RoundTrip | MessagePackTest.MessagePack.Tests/SerializerTestFixture.cs:90-107 | what SerializeToStream writes, Deserialize turns back into every ElementDefinition in input order, then every Parameter in input order, each with all its fields |
| Serializer.NullListRejectedWhenFlattened | MessagePackTest.MessagePack/PayloadFactory.cs:89-90 | a payload with a null list is written and read back, and deserializing fails only at flattening, with an argument error naming the collection |
| Serializer.LaterMemberReplacesNilList | MessagePackTest.MessagePack/Payload.cs:46-47 | a nil list replaced by a later member under the same key is never flattened: the stream reads as no Things |
| Serializer.MalformedMemberAfterNilList | MessagePackTest.MessagePack/Payload.cs:46-53 | a nil list followed by a malformed list fails with the format error of the malformed one, not with the null list's argument error |
| JsonSerializer.WriteEDs | MessagePackTest.MessagePack/JsonSerializer.cs:63-92 | the ElementDefinition objects are written exactly when all Aliases are set, one object per entity in order; otherwise a null reference |
| JsonSerializer.WriteParams | MessagePackTest.MessagePack/JsonSerializer.cs:99-114 | the Parameter objects are written exactly when every value is finite, one object per Parameter in order; otherwise an argument error |
| JsonSerializer.Serialize | MessagePackTest.MessagePack/JsonSerializer.cs:54-119 | a null list fails; the write succeeds exactly when Aliases are set and values finite; the root has the keys Created, ElementDefinition and Parameter, the creation time first, then each array holding exactly one object per entity of its kind, in input order |
| JsonSerializer.Lookup | MessagePackTest.MessagePack/JsonSerializer.cs:141 | a property is missing exactly when no property has the name |
| JsonSerializer.LookupFindsLast | MessagePackTest.MessagePack/JsonSerializer.cs:146 | a found value is that of the last property with the name |
| JsonSerializer.GetString | MessagePackTest.MessagePack/JsonSerializer.cs:159 | a string or null is read back as the value that writes it; anything else is the wrong kind |
| JsonSerializer.GetGuid | MessagePackTest.MessagePack/JsonSerializer.cs:154 | a string that parses as a GUID gives it; an unparseable string is a format error; anything else is the wrong kind |
| JsonSerializer.AddAliases | MessagePackTest.MessagePack/JsonSerializer.cs:167-173 | adding to an unset list fails on the first readable alias; adding to a set list appends every alias in order and keeps the earlier ones |
| JsonSerializer.ReadElementDefinition | MessagePackTest.MessagePack/JsonSerializer.cs:148-183 | an object yields a well-formed ElementDefinition, and every missing property leaves its constructor default |
| JsonSerializer.ReadParameter | MessagePackTest.MessagePack/JsonSerializer.cs:189-208 | an object yields a well-formed Parameter, and every missing property leaves its constructor default |
| JsonSerializer.CheckCreated | MessagePackTest.MessagePack/JsonSerializer.cs:141-144 | a missing Created property is accepted; one that is not a string fails |
| JsonSerializer.DeserializeWith | MessagePackTest.MessagePack/JsonSerializer.cs:133-214 | a root that is not an object fails; every Thing returned is well-formed; a missing list contributes nothing |
| JsonSerializer.Deserialize | MessagePackTest.MessagePack/JsonSerializer.cs:133-214 | the corrected reader, with the Aliases list created before it is filled, gives only well-formed Things |
| JsonSerializer.SameLookupsSameED | MessagePackTest.MessagePack/JsonSerializer.cs:150-181 | objects whose known properties look up alike read alike |
| JsonSerializer.EDIgnoresUnknownProperty | MessagePackTest.MessagePack/JsonSerializer.cs:150-181 | an ElementDefinition object with one more property under any other name reads the same |
| JsonSerializer.ParamIgnoresUnknownProperty | MessagePackTest.MessagePack/JsonSerializer.cs:191-206 | a Parameter object with one more property under any other name reads the same |
| JsonSerializer.EmptyObjectsAreDefaults | MessagePackTest.MessagePack/JsonSerializer.cs:150-208 | an empty object reads as a freshly constructed entity |
| JsonSerializer.AddWrittenAliases | MessagePackTest.MessagePack/JsonSerializer.cs:77-82 | aliases written one after another are appended to a set list in order |
| JsonSerializer.ReadWrittenED | MessagePackTest.MessagePack/JsonSerializer.cs:66-91 | a written ElementDefinition reads back whole when its Aliases list starts empty |
| JsonSerializer.ReadWrittenParameter | MessagePackTest.MessagePack/JsonSerializer.cs:102-113 | a written Parameter reads back whole |
| JsonSerializer.RoundTrip | MessagePackTest.MessagePack.Tests/JsonSerializerTestFixture.cs:50-64 | for well-formed Things with Aliases set and finite values, the corrected reader gives back every ElementDefinition in input order, then every Parameter in input order, each with all its fields |
| JsonSerializer.DeserializeAsWritten | MessagePackTest.MessagePack/JsonSerializer.cs:150 | the reader as written: a root that is not an object fails, and every Thing returned is well-formed |
| JsonSerializer.AsWrittenLosesED | MessagePackTest.MessagePack/JsonSerializer.cs:167-173 | as written, reading back any ElementDefinition with an alias fails with a null reference |
| JsonSerializer.AsWrittenCounterexample | MessagePackTest.MessagePack/JsonSerializer.cs:167-173 | one ElementDefinition with one alias fails as written with a null reference, and reads correctly once the list is created first |
| JsonSerializer.AsWrittenRoundTripFails | MessagePackTest.MessagePack/JsonSerializer.cs:150 | as written, serializing then deserializing any ElementDefinition with an alias fails |
| ResponseNegotiator.Split | MessagePackTest.Server/v1_0_0/MessagePackResponseNegotiator.cs:54 | cutting at the separator gives at least one piece, no piece holds the separator, and joining the pieces gives back the text |
| ResponseNegotiator.SplitJoin | MessagePackTest.Server/v1_0_0/MessagePackResponseNegotiator.cs:54 | splitting undoes joining pieces that hold no separator |
| ResponseNegotiator.Trim | MessagePackTest.Server/v1_0_0/MessagePackResponseNegotiator.cs:55-57 | the trimmed text neither starts nor ends with white space, and is no longer than the input |
| ResponseNegotiator.TrimRemovesWhiteSpace | MessagePackTest.Server/v1_0_0/MessagePackResponseNegotiator.cs:55-57 | the trimmed text sits inside the input with only white space before and after it |
| ResponseNegotiator.TrimPadded | MessagePackTest.Server/v1_0_0/MessagePackResponseNegotiator.cs:55-57 | trimming removes exactly the white space around text that is already trimmed |
| ResponseNegotiator.TrimIdempotent | MessagePackTest.Server/v1_0_0/MessagePackResponseNegotiator.cs:55-57 | trimming twice is trimming once |
| ResponseNegotiator.CanHandle | MessagePackTest.Server/v1_0_0/MessagePackResponseNegotiator.cs:50-63 | accepted exactly when there are at least three pieces and the first three, trimmed, are the media type, the standard and the version; a different first piece is refused; an index-out-of-range error occurs exactly when a matching prefix runs out of pieces |
| ResponseNegotiator.AcceptsComposed | MessagePackTest.Server/v1_0_0/MessagePackResponseNegotiator.cs:54-57 | for a header joined from pieces with no ';', the answer is the comparison of its first three trimmed pieces |
| ResponseNegotiator.ExtraSegmentsIgnored | MessagePackTest.Server/v1_0_0/MessagePackResponseNegotiator.cs:54-57 | once three pieces are present, anything appended after another ';' does not change the answer |
| ResponseNegotiator.WhiteSpaceIgnored | MessagePackTest.Server/v1_0_0/MessagePackResponseNegotiator.cs:55-57 | white space around each of the three expected pieces is accepted |
| ResponseNegotiator.OtherMediaTypeRefused | MessagePackTest.Server/v1_0_0/MessagePackResponseNegotiator.cs:55 | a first piece other than the media type is refused, whatever follows |
| ResponseNegotiator.CanHandleGuarded | MessagePackTest.Server/v1_0_0/MessagePackResponseNegotiator.cs:50-63 | the corrected check accepts exactly what the code as written accepts, and answers no where the code fails |
| ResponseNegotiator.MediaTypeAloneRefused | MessagePackTest.Server/v1_0_0/MessagePackResponseNegotiator.cs:55-56 | the media type alone fails as written with an index-out-of-range error and is refused by the corrected check |
| ResponseNegotiator.ContentTypeAccepted | MessagePackTest.Server/v1_0_0/MessagePackResponseNegotiator.cs:93 | the content type the server writes is one CanHandle accepts |
| ResponseNegotiator.Handle | MessagePackTest.Server/v1_0_0/MessagePackResponseNegotiator.cs:84-100 | only a list of Things is supported, with a not-supported error otherwise; the response carries the list unchanged and a content type the negotiator accepts |

## Left out

- I/O, streams, pipe writers, async and cancellation are left out. The clock (`DateTime.UtcNow`) is a `created` parameter. The JSON path works on the parsed tree, not on UTF-8 text. The MessagePack path works on a token stream, not on the byte-level format codes.
- `Serializer.Resolve`: the standard resolver is a parameter (`standard`), since its formatters are library code.
- The `Payload` formatter is generated by the MessagePack library. It is modelled from the library's documented behaviour for string keys: a map, skipping unknown keys, fresh defaults for missing members.
- `Serializer.ReadEDElements`: a nil element inside a list is an error here. The library would store a null entry, which no `Thing` can represent.
- `Model.ElementDefinition`: the `Parameters` list is never null here. Its setter is public, and a null list would make both writers throw a null reference (ElementDefinitionFormatter.cs:67, JsonSerializer.cs:85); the model represents this failure for `Aliases` only.
- `PayloadFactory.Create`: the input list holds no null elements, since a `Thing` has no null value. A null element would throw a null reference at `thing.ClassKind` (PayloadFactory.cs:58), while `JsonSerializer` would skip it through `OfType` (JsonSerializer.cs:63, 99).
- `Serializer.ReadMember`: a non-string key is a format error. The library's handling of other key types is not modelled.
- `MsgPack.ReadDouble`: accepts only 64-bit floats. The library also converts other numeric formats, which the formatters never write.
- `Primitives.DateText`: a timestamp's JSON text is abstracted to 16 hexadecimal digits. The ISO 8601 layout is not modelled. The MessagePack timestamp is an opaque token.
- Doubles are opaque 64-bit patterns with a finiteness test. No arithmetic is modelled.
- `ElementDefinition.Aliases` is declared `string[]`, but both formatters use it as a `List<string>` (`Count`, `Add`). It is modelled as a nullable sequence of nullable strings.
- `MediaTypeHeaderValue` parsing and printing are not modelled: `CanHandle` takes the header's text.
- The serializer call inside `Handle` is not modelled: the response records the Things it would serialize.
- `HomeModule`, the programs and the client metrics page are callers, not part of the core.
- `FormatterCache<T>`'s static initialisation is modelled as a memo map. The runtime's thread-safe once-only initialisation is not modelled.
- The content type `Handle` writes is composed from the three constants `CanHandle` compares. `ResponseNegotiator.ContentTypeText` shows it equals the literal in the source.

## Findings

| source | as written | input that shows it | evidently intended | confidence | as-written member | corrected member |
|---|---|---|---|---|---|---|
| MessagePackTest.MessagePack/JsonSerializer.cs:150 | each ElementDefinition is created with the parameterless constructor, which leaves `Aliases` null (messagepacktest.model/ElementDefinition.cs:61); then `Aliases.Add` is called for each alias (lines 167-173), which is a null reference | `{"ElementDefinition":[{"Aliases":["alias_0"]}]}` | create the list before filling it, as ElementDefinitionFormatter.cs:111 does, so the aliases read back (JsonSerializerTestFixture.cs:57) | high; not executed | JsonSerializer.AsWrittenCounterexample | JsonSerializer.RoundTrip |
| MessagePackTest.Server/v1_0_0/MessagePackResponseNegotiator.cs:55-57 | `contentTypeArray[1]` and `[2]` are read without checking how many pieces the split produced | `application/msgpack` (no ';') | a header with fewer than three pieces is one the negotiator cannot handle: answer false | medium; not executed | ResponseNegotiator.MediaTypeAloneRefused | ResponseNegotiator.CanHandleGuarded |
