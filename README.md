# divirgance-jdbc binary record codec, in Dafny

This project models the part of divirgance-jdbc that turns a byte stream into
records:

- **`DivirganceRecord`** is a string-keyed map that can also keep insertion
  order in a duplicate-free key list. The model covers its typed getters, its
  strict `equals` and its order-independent `hashCode`.
- **`KeyStreamEncoder`** is the key dictionary. Register tags (0xF1) grow it, a
  reset tag (0xF2) empties it, and it holds at most 0xFFFF keys.
- **`BinaryDecoder`** is a tag-dispatch reader over a `DataInput`. Objects are
  an id table followed by values, arrays are counted lists, and control tags
  change the dictionaries before the next value is read.
- **`BinaryInput`** checks the header (magic bytes, version, flags). Its
  iterator looks one record ahead and drains the stream on `close()`.
- **`IdentityTransformer`** maps an iterator of records one-to-one.

Each stateful Java class is a Dafny class with the same fields:

- `DivirganceRecord`: `map` and `orderedKeys`.
- `KeyStreamEncoder`: `lookup`, the `keys` array and `index`.
- `BinaryDecoder`: its two dictionaries.
- The iterator of `BinaryInput`: the look-ahead record and `closed`.

Every method is proved against a function over values, and the lemmas state
what the code promises about those functions:

- `Values` models the record as a value `Rec(ordered, orderedKeys, fields)`.
- `Keys` has the key table as a sequence.
- `Wire` gives the decoder as `Decode`, a function from the unread bytes and
  the dictionaries to a value, the bytes left over and the new dictionaries.
- `Input` gives the record stream as `RecordRun`.

No value encoder is part of the modelled code. `WireEncode` is therefore a
specification of the layout `read` expects, and the decoder is proved to undo
it (`WireEncode.RoundTrip`).

Files:

| file | module | contents |
|---|---|---|
| base.dfy | Base | bytes, Java strings as byte sequences, the exceptions, `Result` |
| dataio.dfy | DataIO | big-endian numbers, `DataInput`/`DataOutput` reads and writes |
| values.dfy | Values | decoded values, the record state and its operations, equality, hash |
| record_laws.dfy | RecordLaws | the properties of the record operations, equality and hash |
| record.dfy | Records | class `DivirganceRecord` |
| keys.dfy | Keys | the key table, class `KeyStreamEncoder` |
| strings.dfy | Strings | the string dictionary the decoder uses |
| wire.dfy | Wire | the stream functions of `BinaryDecoder.read` |
| wire_laws.dfy | WireLaws | the tag-by-tag properties of `Decode` |
| wire_encode.dfy | WireEncode | the layout as a writer, and the round trips |
| decoder.dfy | Decoder | class `BinaryDecoder` |
| input.dfy | Input | the header check, the record stream, the iterator, `BinaryInput` |
| transform.dfy | Transform | `IdentityTransformer` |

The model follows the code also where its behaviour is not what one would expect of the format:

- A stream that ends without the 0xFF marker fails with an end-of-stream
  error. It does not end the iteration.
- The key table holds 65535 keys, not 65536.
- A header cut short after the magic passes the version check, because
  `read()` yields -1.
- A top-level 0x00 ends the iteration just as 0xFF does.
- The copy constructor leaves the key list of a copied plain map empty.

## Model

| member | source | states |
|---|---|---|
| Records.DivirganceRecord.constructor | src/main/java/com/invirgance/divirgance/jdbc/DivirganceRecord.java:38-41 | a new record is ordered, empty and consistent |
| Records.DivirganceRecord.WithOrder | src/main/java/com/invirgance/divirgance/jdbc/DivirganceRecord.java:43-49 | a new record is empty, with the requested ordering |
| Records.DivirganceRecord.Copy | src/main/java/com/invirgance/divirgance/jdbc/DivirganceRecord.java:51-65 | the copy has the source's fields and is ordered; the key list is copied only from an ordered DivirganceRecord |
| Records.DivirganceRecord.Size | src/main/java/com/invirgance/divirgance/jdbc/DivirganceRecord.java:67-71 | size() is the number of map entries |
| Records.DivirganceRecord.Keys | src/main/java/com/invirgance/divirgance/jdbc/DivirganceRecord.java:264-270 | keySet() holds exactly the listed keys when the record is ordered and the map's keys otherwise; in a sound record it is within the map's keys |
| Records.DivirganceRecord.IsNull | src/main/java/com/invirgance/divirgance/jdbc/DivirganceRecord.java:79-82 | isNull is true exactly when the key is absent or maps to null |
| Records.DivirganceRecord.Put | src/main/java/com/invirgance/divirgance/jdbc/DivirganceRecord.java:226-232 | put updates the map, appends a new key to the ordered list, keeps the record consistent and returns the previous value (null if absent) |
| Records.DivirganceRecord.Remove | src/main/java/com/invirgance/divirgance/jdbc/DivirganceRecord.java:234-240 | remove drops the key from map and list, keeps the record consistent and returns the previous value |
| Records.DivirganceRecord.PutAll | src/main/java/com/invirgance/divirgance/jdbc/DivirganceRecord.java:242-254 | putAll merges the entries and appends, in the given order, every key not yet listed |
| Records.DivirganceRecord.Clear | src/main/java/com/invirgance/divirgance/jdbc/DivirganceRecord.java:256-262 | clear empties map and list and keeps the ordering flag |
| Records.DivirganceRecord.GetBoolean | src/main/java/com/invirgance/divirgance/jdbc/DivirganceRecord.java:102-111 | absent or null fails as null; a Boolean is returned; a String is parsed; any other class fails |
| Records.DivirganceRecord.GetBooleanOr | src/main/java/com/invirgance/divirgance/jdbc/DivirganceRecord.java:113-122 | absent or null gives the default, otherwise as getBoolean |
| Records.DivirganceRecord.GetDouble | src/main/java/com/invirgance/divirgance/jdbc/DivirganceRecord.java:124-133 | absent or null fails; a Double is returned; a String is parsed; any other class fails |
| Records.DivirganceRecord.GetDoubleOr | src/main/java/com/invirgance/divirgance/jdbc/DivirganceRecord.java:135-144 | absent or null gives the default, otherwise as getDouble |
| Records.DivirganceRecord.GetInt | src/main/java/com/invirgance/divirgance/jdbc/DivirganceRecord.java:146-155 | absent or null fails; only an Integer is returned and a String parsed; Long, Short and the rest fail |
| Records.DivirganceRecord.GetIntOr | src/main/java/com/invirgance/divirgance/jdbc/DivirganceRecord.java:157-166 | absent or null gives the default, otherwise as getInt |
| Records.DivirganceRecord.GetJSONArray | src/main/java/com/invirgance/divirgance/jdbc/DivirganceRecord.java:168-176 | absent or null gives null; a list is returned; fails exactly for any other class |
| Records.DivirganceRecord.GetJSONArrayOr | src/main/java/com/invirgance/divirgance/jdbc/DivirganceRecord.java:178-186 | absent or null gives the default, otherwise as getJSONArray |
| Records.DivirganceRecord.GetJSONObject | src/main/java/com/invirgance/divirgance/jdbc/DivirganceRecord.java:188-196 | absent or null gives null; a record is returned; fails exactly for any other class |
| Records.DivirganceRecord.GetJSONObjectOr | src/main/java/com/invirgance/divirgance/jdbc/DivirganceRecord.java:198-206 | absent or null gives the default, otherwise as getJSONObject |
| Records.DivirganceRecord.GetString | src/main/java/com/invirgance/divirgance/jdbc/DivirganceRecord.java:208-215 | null exactly when absent or null; a String is returned as is; any other value gives its toString() (the parameter `render`) |
| Records.DivirganceRecord.GetStringOr | src/main/java/com/invirgance/divirgance/jdbc/DivirganceRecord.java:217-224 | absent or null gives the default, otherwise as getString |
| Records.DivirganceRecord.Equals | src/main/java/com/invirgance/divirgance/jdbc/DivirganceRecord.java:284-314 | the loop over keySet() returns true exactly when the records are equal in the sense of RecordEquals |
| Records.DivirganceRecord.HashCode | src/main/java/com/invirgance/divirgance/jdbc/DivirganceRecord.java:316-332 | the loop computes 0xC0FFEE plus the non-null values' hashes plus size(), with 32-bit wrap-around |
| Records.ParseBoolean | src/main/java/com/invirgance/divirgance/jdbc/DivirganceRecord.java:108 | Boolean.parseBoolean is true exactly for a four-byte text whose ASCII lower-case form is "true" |
| Values.Get | src/main/java/com/invirgance/divirgance/jdbc/DivirganceRecord.java:96-100 | get yields null exactly for an absent key or a null value |
| Values.Empty | src/main/java/com/invirgance/divirgance/jdbc/DivirganceRecord.java:43-49 | an empty record is consistent with no keys |
| Values.CopyOf | src/main/java/com/invirgance/divirgance/jdbc/DivirganceRecord.java:51-65 | the copy is ordered and has the source's fields |
| Values.Put | src/main/java/com/invirgance/divirgance/jdbc/DivirganceRecord.java:227-232 | put keeps soundness and consistency and sets exactly that key |
| Values.RemoveFirst | src/main/java/com/invirgance/divirgance/jdbc/DivirganceRecord.java:237 | ArrayList.remove leaves a list without the key unchanged and adds nothing |
| Values.Remove | src/main/java/com/invirgance/divirgance/jdbc/DivirganceRecord.java:235-240 | remove deletes exactly that key from the map |
| Values.PutAll | src/main/java/com/invirgance/divirgance/jdbc/DivirganceRecord.java:243-254 | putAll's map is the old map overridden by the entries |
| Values.Clear | src/main/java/com/invirgance/divirgance/jdbc/DivirganceRecord.java:257-262 | clear gives a consistent record with no keys |
| Values.Wrap32 | src/main/java/com/invirgance/divirgance/jdbc/DivirganceRecord.java:328-331 | Java int addition wraps into the 32-bit range |
| RecordLaws.PutAbsentAppends | src/main/java/com/invirgance/divirgance/jdbc/DivirganceRecord.java:229-231 | put of an absent key appends it to the key list, grows size by one and returns null |
| RecordLaws.PutPresentReplaces | src/main/java/com/invirgance/divirgance/jdbc/DivirganceRecord.java:229-231 | put of a present key keeps the key list and the size and returns the previous value |
| RecordLaws.RemoveFirstAt | src/main/java/com/invirgance/divirgance/jdbc/DivirganceRecord.java:237 | in a duplicate-free list, removing a key cuts out exactly its position |
| RecordLaws.RemoveFirstMembers | src/main/java/com/invirgance/divirgance/jdbc/DivirganceRecord.java:237 | removal keeps the list duplicate-free and its members are the old ones minus the key |
| RecordLaws.RemoveDeletes | src/main/java/com/invirgance/divirgance/jdbc/DivirganceRecord.java:235-240 | remove keeps the record consistent, the key is gone from map and keySet, size drops by one exactly when the key was present |
| RecordLaws.RemoveKeepsOrder | src/main/java/com/invirgance/divirgance/jdbc/DivirganceRecord.java:237 | remove keeps the relative order of the other keys |
| RecordLaws.AppendNewFacts | src/main/java/com/invirgance/divirgance/jdbc/DivirganceRecord.java:247-250 | the putAll loop keeps the list duplicate-free, keeps its prefix and adds exactly the new keys |
| RecordLaws.PutAllPreserves | src/main/java/com/invirgance/divirgance/jdbc/DivirganceRecord.java:242-254 | putAll keeps the record consistent and the existing key order as a prefix |
| RecordLaws.ClearEmpties | src/main/java/com/invirgance/divirgance/jdbc/DivirganceRecord.java:257-262 | after clear, size() is 0 and keySet() is empty |
| RecordLaws.CopyOfMapBreaksOrdering | src/main/java/com/invirgance/divirgance/jdbc/DivirganceRecord.java:51-65 | copying a non-empty plain map gives an ordered record with empty keySet() but size() > 0 |
| RecordLaws.CopyOfUnorderedBreaksOrdering | src/main/java/com/invirgance/divirgance/jdbc/DivirganceRecord.java:57-64 | copying a non-empty unordered DivirganceRecord breaks the invariant in the same way |
| RecordLaws.CopyOfOrderedKeepsOrder | src/main/java/com/invirgance/divirgance/jdbc/DivirganceRecord.java:59-63 | copying an ordered record keeps its key order and consistency |
| RecordLaws.BrokenCopyEqualsAnySameSize | src/main/java/com/invirgance/divirgance/jdbc/DivirganceRecord.java:296-313 | such a broken copy equals every record of the same size, since equals walks the empty keySet() |
| RecordLaws.EqualReflexive | src/main/java/com/invirgance/divirgance/jdbc/DivirganceRecord.java:291 | every well-formed value is equal to itself |
| RecordLaws.EqualsIff | src/main/java/com/invirgance/divirgance/jdbc/DivirganceRecord.java:285-314 | consistent records are equal exactly when they have the same keys and strictly equal values |
| RecordLaws.EqualsIgnoresOrder | src/main/java/com/invirgance/divirgance/jdbc/DivirganceRecord.java:298-311 | key order does not matter to equals, in either direction |
| RecordLaws.DifferentClassesDiffer | src/main/java/com/invirgance/divirgance/jdbc/DivirganceRecord.java:309 | values of different classes are never equal |
| RecordLaws.HashSumRemove | src/main/java/com/invirgance/divirgance/jdbc/DivirganceRecord.java:322-329 | the hash sum splits off any one key |
| RecordLaws.HashSumCongruent | src/main/java/com/invirgance/divirgance/jdbc/DivirganceRecord.java:322-329 | records with the same per-key hash terms have the same sum |
| RecordLaws.EqualsImpliesSameHash | src/main/java/com/invirgance/divirgance/jdbc/DivirganceRecord.java:285-332 | equal records have equal hash codes when the value hashes respect equality |
| RecordLaws.HashIgnoresOrder | src/main/java/com/invirgance/divirgance/jdbc/DivirganceRecord.java:316-332 | the hash code does not depend on key order |
| RecordLaws.HashLoopStep | src/main/java/com/invirgance/divirgance/jdbc/DivirganceRecord.java:322-329 | one iteration of the hash loop adds that key's term, with wrap-around |
| RecordLaws.HashFinish | src/main/java/com/invirgance/divirgance/jdbc/DivirganceRecord.java:331 | adding size() after the loop yields the hash code |
| RecordLaws.WrapAdd | src/main/java/com/invirgance/divirgance/jdbc/DivirganceRecord.java:328 | wrapping after every addition equals wrapping once at the end |
| Keys.KeyAt | src/main/java/com/invirgance/divirgance/io/KeyStreamEncoder.java:67-73 | get(id) succeeds exactly for 0 <= id < size() with the stored key, and fails with the id otherwise; a negative id, an array index error in Java, is folded into the same error |
| Keys.ReadStep | src/main/java/com/invirgance/divirgance/io/KeyStreamEncoder.java:80-91 | read fails at 0xFFFF keys without consuming; otherwise it appends the readUTF string as id size() |
| Keys.WriteStep | src/main/java/com/invirgance/divirgance/io/KeyStreamEncoder.java:93-111 | write keeps the table within capacity |
| Keys.WriteAll | src/main/java/com/invirgance/divirgance/io/KeyStreamEncoder.java:93-111 | a run of writes keeps the table within capacity |
| Keys.WriteStepFacts | src/main/java/com/invirgance/divirgance/io/KeyStreamEncoder.java:93-111 | a known key returns its id and emits nothing; a new key is stored at id size() and emits 0xF1 and writeUTF(key), failing only when writeUTF refuses it; a new key fails with the capacity error, storing and emitting nothing, exactly when 65535 keys are held |
| Keys.WriteAllUnique | src/main/java/com/invirgance/divirgance/io/KeyStreamEncoder.java:95-105 | writes never store a key twice |
| Keys.UniqueLookup | src/main/java/com/invirgance/divirgance/io/KeyStreamEncoder.java:62-65 | in a duplicate-free table, lookup and keys are mutually inverse |
| Keys.LastIdsFacts | src/main/java/com/invirgance/divirgance/io/KeyStreamEncoder.java:90 | the lookup maps each stored key to the last id it was stored at |
| Keys.ReadStepOfWrite | src/main/java/com/invirgance/divirgance/io/KeyStreamEncoder.java:87-90 | read of the payload write emits for a new key yields the writer's new table |
| Keys.KeyStreamEncoder.constructor | src/main/java/com/invirgance/divirgance/io/KeyStreamEncoder.java:43-46 | a new encoder is empty |
| Keys.KeyStreamEncoder.Reset | src/main/java/com/invirgance/divirgance/io/KeyStreamEncoder.java:48-60 | reset empties table and lookup and writes 0xF2 exactly when out is given |
| Keys.KeyStreamEncoder.GetId | src/main/java/com/invirgance/divirgance/io/KeyStreamEncoder.java:62-65 | get(key) yields an id exactly for a stored key, and the table holds that key at it |
| Keys.KeyStreamEncoder.GetKey | src/main/java/com/invirgance/divirgance/io/KeyStreamEncoder.java:67-73 | get(id) fails exactly when id is not below size() |
| Keys.KeyStreamEncoder.Size | src/main/java/com/invirgance/divirgance/io/KeyStreamEncoder.java:75-78 | size() is the table length, at most 0xFFFF |
| Keys.KeyStreamEncoder.Read | src/main/java/com/invirgance/divirgance/io/KeyStreamEncoder.java:80-91 | read does what ReadStep says to the table and the input |
| Keys.KeyStreamEncoder.Write | src/main/java/com/invirgance/divirgance/io/KeyStreamEncoder.java:93-111 | write does what WriteStep says to the table and the output |
| Strings.StringAt | src/main/java/com/invirgance/divirgance/io/BinaryDecoder.java:146 | a string id is found exactly below the dictionary size |
| Strings.StringRead | src/main/java/com/invirgance/divirgance/io/BinaryDecoder.java:198-200 | string registration appends exactly the readUTF string |
| Strings.StringEncoder.Get | src/main/java/com/invirgance/divirgance/io/BinaryDecoder.java:146 | get(id) succeeds exactly for a registered id |
| Strings.StringEncoder.Read | src/main/java/com/invirgance/divirgance/io/BinaryDecoder.java:199 | read does what StringRead says |
| DataIO.Unsigned | src/main/java/com/invirgance/divirgance/io/BinaryDecoder.java:158-161 | an unsigned big-endian field is below 256^width |
| DataIO.SignedRoundTrip | src/main/java/com/invirgance/divirgance/io/BinaryDecoder.java:154-176 | two's complement reading undoes two's complement writing |
| DataIO.UnsignedBigEndian | src/main/java/com/invirgance/divirgance/io/BinaryDecoder.java:158-161 | big-endian reading undoes big-endian writing |
| DataIO.Take | src/main/java/com/invirgance/divirgance/io/BinaryDecoder.java:131 | readFully succeeds exactly when enough bytes remain, and otherwise fails at the end of the stream |
| DataIO.TakeUnsigned | src/main/java/com/invirgance/divirgance/io/BinaryDecoder.java:98-103 | readUnsignedShort and friends succeed exactly when width bytes remain |
| DataIO.TakeSigned | src/main/java/com/invirgance/divirgance/io/BinaryDecoder.java:117 | readInt and friends give a value in the signed range |
| DataIO.TakeUtf | src/main/java/com/invirgance/divirgance/io/KeyStreamEncoder.java:88 | readUTF consumes a two-byte length and that many bytes |
| DataIO.TakeUtfOfUtf | src/main/java/com/invirgance/divirgance/io/KeyStreamEncoder.java:88-108 | readUTF undoes writeUTF |
| DataIO.DataInput.ReadRaw | src/main/java/com/invirgance/divirgance/io/BinaryInput.java:63 | read() yields the next byte, or -1 at the end without consuming |
| DataIO.DataInput.ReadFully | src/main/java/com/invirgance/divirgance/io/BinaryDecoder.java:131 | readFully does what Take says |
| DataIO.DataInput.ReadUnsigned | src/main/java/com/invirgance/divirgance/io/BinaryDecoder.java:98-103 | the unsigned reads do what TakeUnsigned says |
| DataIO.DataInput.ReadSigned | src/main/java/com/invirgance/divirgance/io/BinaryDecoder.java:117 | the signed reads do what TakeSigned says |
| DataIO.DataInput.ReadUtf | src/main/java/com/invirgance/divirgance/io/KeyStreamEncoder.java:88 | readUTF does what TakeUtf says |
| DataIO.DataOutput.Write | src/main/java/com/invirgance/divirgance/io/KeyStreamEncoder.java:107 | write(b) appends one byte |
| DataIO.DataOutput.WriteUtf | src/main/java/com/invirgance/divirgance/io/KeyStreamEncoder.java:108 | writeUTF appends the length and the bytes, and fails for 65536 bytes or more |
| Wire.Width | src/main/java/com/invirgance/divirgance/io/BinaryDecoder.java:154-176 | each fixed-width tag reads between 1 and 8 bytes |
| Wire.Decode | src/main/java/com/invirgance/divirgance/io/BinaryDecoder.java:136-208 | read consumes at least the tag byte |
| Wire.DecodeValue | src/main/java/com/invirgance/divirgance/io/BinaryDecoder.java:140-207 | a value never needs more than the bytes after its tag |
| Wire.DecodeStringRef | src/main/java/com/invirgance/divirgance/io/BinaryDecoder.java:145-146 | a string reference yields a registered string, consumes its id byte and leaves the dictionaries alone |
| Wire.DecodeFixed | src/main/java/com/invirgance/divirgance/io/BinaryDecoder.java:154-176 | a fixed-width value consumes exactly its width and fails exactly when fewer bytes remain |
| Wire.DecodeClob | src/main/java/com/invirgance/divirgance/io/BinaryDecoder.java:127-134 | a CLOB is a four-byte length followed by its bytes |
| Wire.DecodeArray | src/main/java/com/invirgance/divirgance/io/BinaryDecoder.java:114-125 | an array decodes to a list and consumes its count |
| Wire.DecodeObject | src/main/java/com/invirgance/divirgance/io/BinaryDecoder.java:95-112 | an object decodes to an ordered record |
| Wire.TakeIds | src/main/java/com/invirgance/divirgance/io/BinaryDecoder.java:99-104 | the id table is n two-byte ids |
| Wire.DecodeFields | src/main/java/com/invirgance/divirgance/io/BinaryDecoder.java:106-109 | filling the fields keeps the record's ordering |
| Wire.DecodeItems | src/main/java/com/invirgance/divirgance/io/BinaryDecoder.java:117-122 | the list grows by exactly the count, or not at all for a count <= 0, after the items already read |
| WireLaws.EmptyInput | src/main/java/com/invirgance/divirgance/io/BinaryDecoder.java:138 | reading at the end of the stream fails |
| WireLaws.NullTags | src/main/java/com/invirgance/divirgance/io/BinaryDecoder.java:142-143 | tags 0x00 and 0xFF decode to null and consume only the tag |
| WireLaws.BooleanTags | src/main/java/com/invirgance/divirgance/io/BinaryDecoder.java:178-182 | 'T' and 'F' decode to true and false and consume only the tag |
| WireLaws.FixedWidthTag | src/main/java/com/invirgance/divirgance/io/BinaryDecoder.java:154-188 | each fixed-width tag consumes exactly its payload, read big-endian, signed or unsigned per tag |
| WireLaws.UnsignedIntegerTags | src/main/java/com/invirgance/divirgance/io/BinaryDecoder.java:157-161 | 0x20 and 0x21 give an Integer in 0..255 and 0..65535 |
| WireLaws.StringTagReadsOneByte | src/main/java/com/invirgance/divirgance/io/BinaryDecoder.java:145-146 | tag 0x01 reads one unsigned byte as the string id, so only ids 0..255 are reachable |
| WireLaws.NonPositiveArrayCount | src/main/java/com/invirgance/divirgance/io/BinaryDecoder.java:117-122 | a count <= 0 gives an empty list |
| WireLaws.NegativeClobLength | src/main/java/com/invirgance/divirgance/io/BinaryDecoder.java:129 | a negative CLOB length fails with NegativeArraySize |
| WireLaws.KeyRegisterTag | src/main/java/com/invirgance/divirgance/io/BinaryDecoder.java:190-192 | 0xF1 appends exactly one key and then reads the next value |
| WireLaws.KeyRegisterWhenFull | src/main/java/com/invirgance/divirgance/io/KeyStreamEncoder.java:85 | 0xF1 on a full table fails |
| WireLaws.KeyResetTag | src/main/java/com/invirgance/divirgance/io/BinaryDecoder.java:194-196 | 0xF2 empties the key table and then reads the next value |
| WireLaws.StringRegisterTag | src/main/java/com/invirgance/divirgance/io/BinaryDecoder.java:198-200 | the string-register tag appends one string and then reads the next value |
| WireLaws.UnknownTag | src/main/java/com/invirgance/divirgance/io/BinaryDecoder.java:207 | any tag outside the switch fails with that tag; there is no string-reset case |
| WireLaws.FieldIdOutOfRange | src/main/java/com/invirgance/divirgance/io/BinaryDecoder.java:108 | a field id not below the key count fails the record |
| WireLaws.ResetThenNull | src/main/java/com/invirgance/divirgance/io/BinaryDecoder.java:194-196 | a reset in front of a null yields null with an empty key table |
| WireLaws.KeyLookedUpBeforeValue | src/main/java/com/invirgance/divirgance/io/BinaryDecoder.java:106-109 | the key of a field is taken before its value is read, so a reset inside the value does not change that key |
| WireLaws.ObjectTag | src/main/java/com/invirgance/divirgance/io/BinaryDecoder.java:148-149 | tag 0x02 is readObject |
| WireLaws.ArrayTag | src/main/java/com/invirgance/divirgance/io/BinaryDecoder.java:151-152 | tag 0x03 is readArray with its signed count |
| WireLaws.DecodedIsSound | src/main/java/com/invirgance/divirgance/io/BinaryDecoder.java:95-112 | every decoded record, at any depth, is consistent: a duplicate-free key list whose keySet() is exactly its map's keys |
| WireEncode.Encode | src/main/java/com/invirgance/divirgance/io/BinaryDecoder.java:136-208 | every value has a non-empty encoding |
| WireEncode.RoundTrip | src/main/java/com/invirgance/divirgance/io/BinaryDecoder.java:136-208 | decoding the encoding of any encodable value gives it back, with the rest and the dictionaries untouched |
| WireEncode.ObjectRoundTrip | src/main/java/com/invirgance/divirgance/io/BinaryDecoder.java:95-112 | a record comes back with its keys in id-table order |
| WireEncode.ArrayRoundTrip | src/main/java/com/invirgance/divirgance/io/BinaryDecoder.java:114-125 | a list comes back with its items in order |
| WireEncode.ScalarRoundTrip | src/main/java/com/invirgance/divirgance/io/BinaryDecoder.java:142-188 | every scalar comes back unchanged |
| WireEncode.TakeIdTable | src/main/java/com/invirgance/divirgance/io/BinaryDecoder.java:101-104 | the id table reads back the ids of the keys |
| WireEncode.FieldsRoundTrip | src/main/java/com/invirgance/divirgance/io/BinaryDecoder.java:106-109 | the field loop rebuilds the record key by key |
| WireEncode.ItemsRoundTrip | src/main/java/com/invirgance/divirgance/io/BinaryDecoder.java:119-122 | the item loop rebuilds the list item by item |
| WireEncode.KeyAnnouncementsReplay | src/main/java/com/invirgance/divirgance/io/KeyStreamEncoder.java:87-108 | replaying the register payloads of a run of writes leaves the reader with the writer's table |
| WireEncode.RecordAfterItsKeys | src/main/java/com/invirgance/divirgance/io/BinaryDecoder.java:190-192 | a record sent after its key announcements decodes to itself, and the reader ends with the writer's table |
| Decoder.BinaryDecoder.constructor | src/main/java/com/invirgance/divirgance/io/BinaryDecoder.java:65-73 | a new decoder has empty dictionaries |
| Decoder.BinaryDecoder.GetKey | src/main/java/com/invirgance/divirgance/io/BinaryDecoder.java:75-78 | getKey(id) is the key table's get(id) |
| Decoder.BinaryDecoder.GetKeyCount | src/main/java/com/invirgance/divirgance/io/BinaryDecoder.java:80-83 | getKeyCount() is the table size, at most 0xFFFF |
| Decoder.BinaryDecoder.Read | src/main/java/com/invirgance/divirgance/io/BinaryDecoder.java:136-208 | read yields what Decode says, leaves the input and dictionaries where Decode says, and fails exactly when Decode fails |
| Decoder.BinaryDecoder.ReadValue | src/main/java/com/invirgance/divirgance/io/BinaryDecoder.java:140-207 | the value cases do what DecodeValue says |
| Decoder.BinaryDecoder.ReadStringRef | src/main/java/com/invirgance/divirgance/io/BinaryDecoder.java:145-146 | a string reference does what DecodeStringRef says |
| Decoder.BinaryDecoder.ReadFixed | src/main/java/com/invirgance/divirgance/io/BinaryDecoder.java:154-188 | a fixed-width value does what DecodeFixed says |
| Decoder.BinaryDecoder.ReadClob | src/main/java/com/invirgance/divirgance/io/BinaryDecoder.java:127-134 | readCLOB does what DecodeClob says |
| Decoder.BinaryDecoder.ReadObject | src/main/java/com/invirgance/divirgance/io/BinaryDecoder.java:95-112 | readObject does what DecodeObject says |
| Decoder.BinaryDecoder.ReadIds | src/main/java/com/invirgance/divirgance/io/BinaryDecoder.java:98-104 | the id loop fills the array with what TakeIds reads |
| Decoder.BinaryDecoder.ReadFields | src/main/java/com/invirgance/divirgance/io/BinaryDecoder.java:106-111 | the field loop does what DecodeFields says, starting from the record it fills |
| Decoder.BinaryDecoder.ReadArray | src/main/java/com/invirgance/divirgance/io/BinaryDecoder.java:114-125 | readArray does what DecodeArray says |
| Input.RawAt | src/main/java/com/invirgance/divirgance/io/BinaryInput.java:63 | read() gives -1 exactly past the end |
| Input.Frame | src/main/java/com/invirgance/divirgance/io/BinaryInput.java:61-72 | the header is accepted only after the six magic bytes and with a version of at most 1 |
| Input.Pull | src/main/java/com/invirgance/divirgance/io/BinaryInput.java:93-95 | each top-level read consumes at least one byte |
| Input.MagicRequired | src/main/java/com/invirgance/divirgance/io/BinaryInput.java:38-40 | the stream is refused as not in the format exactly when its first six bytes are not FF FF 42 53 4F 4E |
| Input.VersionRule | src/main/java/com/invirgance/divirgance/io/BinaryInput.java:69-72 | a version above 1 is refused; versions 0 and 1 with plain flags give the rest of the stream |
| Input.OnlyFlagBitZero | src/main/java/com/invirgance/divirgance/io/BinaryInput.java:74-75 | only bit 0 of the flags matters, and it hands the rest to the GZIP reader |
| Input.HeaderAtEndOfStream | src/main/java/com/invirgance/divirgance/io/BinaryInput.java:69-75 | a stream ending after the magic passes the version check, and its -1 flags select GZIP |
| Input.NullEndsRecords | src/main/java/com/invirgance/divirgance/io/BinaryInput.java:93-95 | a top-level 0x00 ends the iteration just as 0xFF does |
| Input.NonRecordFails | src/main/java/com/invirgance/divirgance/io/BinaryInput.java:93-97 | a top-level value that is not a record fails the iteration |
| Input.RecordsRoundTrip | src/main/java/com/invirgance/divirgance/io/BinaryInput.java:86-121 | the iterator hands back, in order, every record of a stream of encoded records followed by 0xFF |
| Input.RecordIterator.constructor | src/main/java/com/invirgance/divirgance/io/BinaryInput.java:80-83 | a new iterator holds no record, is open, and is yet to produce every record of its input |
| Input.RecordIterator.HasNext | src/main/java/com/invirgance/divirgance/io/BinaryInput.java:85-100 | hasNext reads at most one value and none while a record is held or once closed; a null read closes; the records still to come do not change |
| Input.RecordIterator.Next | src/main/java/com/invirgance/divirgance/io/BinaryInput.java:102-121 | next hands out and clears the held record, or reads exactly one value; the records still to come lose exactly the one handed out |
| Input.RecordIterator.Close | src/main/java/com/invirgance/divirgance/io/BinaryInput.java:123-130 | close reads every remaining record up to the null, leaves the stream where the run stops and the iterator closed with no record pending, or fails where the run fails |
| Input.BinaryInput.ReadHeader | src/main/java/com/invirgance/divirgance/io/BinaryInput.java:59-72 | the byte-by-byte header loop does what Frame says |
| Input.BinaryInput.Iterator | src/main/java/com/invirgance/divirgance/io/BinaryInput.java:49-131 | iterator() fails exactly when the header is refused or GZIP fails; otherwise a new decoder and an iterator over the payload |
| Transform.Pop | src/main/java/com/invirgance/divirgance/io/IdentityTransformer.java:53 | the underlying next() yields the first record and advances, or fails past the end |
| Transform.Lift | src/main/java/com/invirgance/divirgance/io/IdentityTransformer.java:51-55 | a transform's SQLException surfaces wrapped as IllegalArgumentException |
| Transform.HasNext | src/main/java/com/invirgance/divirgance/io/IdentityTransformer.java:42-46 | the wrapper's hasNext is the underlying hasNext |
| Transform.Next | src/main/java/com/invirgance/divirgance/io/IdentityTransformer.java:48-56 | next pulls exactly one underlying record and transforms it |
| Transform.Close | src/main/java/com/invirgance/divirgance/io/IdentityTransformer.java:58-65 | close is the underlying close() exactly when the iterator is a CloseableIterator, whose exception passes through unwrapped; any other iterator is left as it is |
| Transform.DrainIsMap | src/main/java/com/invirgance/divirgance/io/IdentityTransformer.java:29-30 | the output is the input mapped element-wise, of equal length |
| Transform.FailureSurfacesAt | src/main/java/com/invirgance/divirgance/io/IdentityTransformer.java:51-55 | a transform failing on the i-th record makes exactly the i-th output fail with that cause |
| Transform.CloseIsUnderlyingClose | src/main/java/com/invirgance/divirgance/io/IdentityTransformer.java:58-65 | after close the wrapper yields exactly what the underlying close() left, transformed; close fails exactly with the underlying exception; a non-closeable iterator is untouched |
| Transform.CloseOfDrainingIterator | src/main/java/com/invirgance/divirgance/io/BinaryInput.java:123-130 | over an iterator whose close() drains it, as BinaryInput's does, a successful close leaves hasNext() false and no output |
| Transform.TransformIterable | src/main/java/com/invirgance/divirgance/io/IdentityTransformer.java:69-83 | each iterator() call wraps that call's own underlying iterator |
| Transform.EachIterationMaps | src/main/java/com/invirgance/divirgance/io/IdentityTransformer.java:69-83 | every iteration over the transformed iterable is the matching iteration over the source, mapped |

## Left out

- Character decoding is not modelled. Strings are the bytes they were read
  from, covering modified UTF-8 in readUTF/writeUTF and UTF-8 in readCLOB.
- Boolean.parseBoolean is defined on the bytes, as the ASCII case-insensitive
  comparison with "true" (`Records.ParseBoolean`).
- Double.parseDouble, Integer.parseInt and each value's toString() and
  hashCode() are parameters.
- Float and double values are kept as raw IEEE-754 bit patterns.
- GZIP decompression is the parameter `inflate` of `Input.BinaryInput.Iterator`.
  It yields the whole payload or fails when the stream is opened. A failure
  in the middle of a compressed payload is therefore not modelled.
- BufferedInputStream is not modelled. Its read-ahead makes what a second
  iterator() call sees depend on the buffer, so the model reads the same
  stream on.
- StringEncoder is not part of this model. The decoder uses it as a growing
  list of strings with get(id) and read(in). Its register tag is the
  parameter `stag`, which can be any byte that is not another case of the
  switch. No capacity and no reset are assumed. Two more assumptions are made
  about it:
  - read(in) reads one readUTF string and registers it under the next id.
  - get(id) fails for an id outside the registered range.
- The BinaryDecoder constructor takes that tag, for the same reason.
- Keys.KeyStreamEncoder.Read: when readUTF fails, the model keeps the old
  table. The source has already incremented index and leaves a null key at
  the new id, which a key of type `Text` cannot hold. Strings.StringEncoder.Read
  likewise keeps its entries when readUTF fails.
- Apart from those two reads, the state of the decoder, its dictionaries and
  the iterator after an exception is not specified.
- DataIO.DataOutput.Write never fails. Java's DataOutput.write can throw
  IOException, which reset rethrows as SQLException and write propagates;
  the model has no such failure.
- Transform.Pop assumes that the wrapped iterator fails with an exception once
  it is exhausted and that its hasNext() never fails. The iterator of
  BinaryInput instead returns null from next() when no record is left, and its
  hasNext() can throw. The `Cursor` abstraction covers neither case.
- Transform.Close takes the underlying close() as the parameter `onClose` of
  the `Cursor`, a function of the records left. It is not tied to
  `Input.RecordIterator.Close` itself; `Transform.CloseOfDrainingIterator`
  states the draining behaviour that method is proved to have.
- The exception classes are folded into one `Error` datatype:
  - A decoder failure that the iterator rethrows as IllegalStateException
    keeps its cause.
  - The cause of an exception is not wrapped a second time.
- Wire.Decode checks the control tags before the value tags. Reading is
  unchanged, because the tags are distinct.
- The iteration order of keySet() on an unordered record (HashMap order) is
  not modelled. equals and hashCode iterate over it as a set.
- DivirganceRecord.isEmpty, containsKey, containsValue, values and entrySet
  are plain delegation to the map, so they are not modelled.
- A record held by the iterator is a value snapshot. Aliasing between a
  record the caller keeps and later changes is not modelled.
- The `instanceof` casts in equals are reduced to a null check: `obj` is a
  `DivirganceRecord?`.
- Records.DivirganceRecord.Put requires a well-formed value, meaning one
  whose nested records keep their own invariant. Java accepts any object.
- Records.DivirganceRecord.Copy requires the same of every copied value, and
  a sound record as its source. Java's copy constructor accepts any Map.
- Wire.DecodeObject states only that the result is ordered. Key order is
  proved for records in the encoded layout (WireEncode.ObjectRoundTrip),
  not for an arbitrary id table that registers or resets keys between fields.
- DivirganceDriver, NoCloseInputStream and the demo Test class are JDBC and
  stream plumbing, so they are not modelled.
