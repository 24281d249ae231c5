# Cadent in Dafny

A Dafny model of the parts of Cadent that have to be right for its metrics to be right, with proofs. Cadent
takes in Graphite, Carbon2 and statsd metrics, spreads them over servers by consistent hashing, accumulates
them per time bin and stores them as compressed time series.

| files | what they model |
|---|---|
| `Basics`, `Bits`, `Float64`, `Points` | shared types, bits of a machine word, IEEE-754 doubles as bit patterns with their integer conversions, points and stamps |
| `BitStreams`, `GorillaValue`, `GorillaTime`, `GorillaCode`, `GorillaRoundTrip`, `GorillaLimits`, `Gorilla` | the Gorilla compressed series, from the bit stream to the series and iterator objects |
| `ProtoWire`, `ProtoMessages`, `ProtoCodec` | the protobuf codec: the wire format, the messages, and the marshal and unmarshal loops over buffers |
| `GobCode`, `Gob`, `ListSeries`, `SeriesRefinement` | the gob, plain and protobuf series, and that all series refine the plain list |
| `Dispatch` | the job dispatcher as a state machine over all interleavings |
| `LruModel`, `LruCache`, `HasherModel`, `HasherPool` | the LRU cache, and the consistent-hash pool that uses it |
| `CarbonTwo`, `RollUp`, `Cascade`, `BinKeys`, `Statsd` | the Carbon2 accumulator, its roll-up and chains of roll-ups, the configured resolutions, the statsd timer |
| `Buffered` | the buffered network connection |

How things are represented:

- Floats in the series are 64-bit patterns, so NaN payloads and negative zero are told apart and float equality
  is its own predicate. The accumulators compute on real numbers, with one value standing for NaN and the
  infinities.
- Machine integers are unbounded integers with the wrap-around of the code written out, for instance the 32-bit
  clock of Gorilla, the 64-bit size counter of the cache and the 16-bit number in a cache key.
- Objects that the code updates in place are classes. Each method is proved against functions on values; the
  laws about whole runs are lemmas about those functions.
- Concurrency is modelled as steps: the dispatcher's routines interleave freely, operations guarded by one lock
  are atomic.
- The network, the ring library, the order of a Go map and the outcome of a job are parameters, and the results
  hold for all of them.

Where code and documentation disagree the model follows the code:

- The Gorilla writer declares an error for points out of time order (gorilla.go:96). The test is made on an
  unsigned difference and never succeeds, so no error is modelled; stamps in any order come back (RoundTrip).
- The cache comment speaks of limiting its bytes. One operation evicts at most one entry, so the total can stay
  above the capacity (OverCapacity, FitsExactly).
- Purging a server is documented to remove it in totality. A dropped server stays on the dropped list
  (PurgeExactly, PurgeDroppedThenReAdd).

## Model

| member | source | states |
|---|---|---|
| `SeriesRefinement.AllSeriesAgree` | src/cadent/server/series/gorilla.go:358-406 | for every non-empty list of ordinary points (stamps in nanoseconds that fit 32-bit seconds, finite values other than the flag and negative zero, counts of at most 53 significant bits, and a count of one exactly where all values are equal), at both resolutions, the plain list, the gob series, the protobuf bytes and the Gorilla stream all give back the same list (stamps cut to seconds at second resolution), provided the first stamp is less than 2^14 seconds after the start |
| `SeriesRefinement.PlainList` | src/cadent/server/series/repr.go:116-134 | the plain list series keeps ordinary points unchanged: the reference the other formats refine |
| `SeriesRefinement.GobRefines` | src/cadent/server/series/gob.go:214-278 | gob encode then decode is the plain list with cut stamps |
| `SeriesRefinement.ProtobufRefines` | src/cadent/server/series/protobuf.go:122-171 | protobuf encode, byte round trip and value extraction is the plain list with cut stamps |
| `SeriesRefinement.GorillaRefines` | src/cadent/server/series/gorilla.go:676-726 | Gorilla encode then decode is the plain list with cut stamps, then a clean end, whatever bits follow the end record |
| `GorillaRoundTrip.RoundTrip` | src/cadent/server/series/gorilla.go:676-726 | for every non-empty list of points with no zero second stamp before the last one, reading the stream yields every point in order and then a clean end, with stamps recombined from seconds and nanoseconds, counts rounded to floats, and a clock that lags by exactly the part of the first step that its 14 bits drop, once more per point |
| `GorillaRoundTrip.RoundTripExact` | src/cadent/server/series/gorilla.go:297-406 | the points come back as they were added (small ones as their sum, stamps cut to seconds at second resolution) if and only if the first stamp is less than 2^14 seconds after the start, every count kept beside its values has at most 53 significant bits and, with nanoseconds, every stamp is zero or in nanoseconds with seconds that fit 32 bits |
| `GorillaRoundTrip.ClockExact` | src/cadent/server/series/gorilla.go:297-314 | the clock does not lag if and only if the first stamp is less than 2^14 seconds after the start time (modulo 2^32) |
| `GorillaRoundTrip.FitsExactly` | src/cadent/server/series/gorilla.go:719-726 | one point is reported as it was added if and only if its count and its stamp fit the format |
| `GorillaRoundTrip.LagAlwaysShows` | src/cadent/server/series/gorilla.go:297-314 | a lagging first stamp never coincides with the right one, not even where seconds and nanoseconds are confused |
| `GorillaRoundTrip.SnapshotsGrow` | src/cadent/server/series/gorilla.go:205-213 | what a snapshot taken after some points decodes to is a prefix of what a later snapshot decodes to, each with as many points as were added by then |
| `GorillaRoundTrip.PointInStep` | src/cadent/server/series/gorilla.go:358-406 | one point after the first: the reader consumes exactly the bits the writer wrote and clock, values and bit windows of both stay related |
| `GorillaRoundTrip.FirstPointInStep` | src/cadent/server/series/gorilla.go:297-314 | the first point, with its 14-bit step and raw values, leaves writer and reader related |
| `GorillaRoundTrip.StreamInStep` | src/cadent/server/series/gorilla.go:676-717 | from any related pair of writer and reader registers the rest of a stream decodes to its points |
| `GorillaRoundTrip.ClockStep` | src/cadent/server/series/gorilla.go:322-356 | the 32-bit clock with wrap-around recovers every second stamp, in any order of stamps |
| `GorillaRoundTrip.StreamSnoc` | src/cadent/server/series/gorilla.go:358-406 | appending a point appends exactly its bits and steps the registers once |
| `GorillaValue.ValueInStep` | src/cadent/server/series/gorilla.go:607-668 | the XOR codec: from any reachable pair of windows, decompression returns the exact 64-bit pattern, consumes exactly the bits written and leaves the windows in step, including the clamp to 31 leading zeros, 64 significant bits stored as 0 and the unset window |
| `GorillaValue.WindowBounds` | src/cadent/server/series/gorilla.go:254-262 | leading and trailing zeros of a non-zero difference fit their fields and leave between 1 and 64 significant bits |
| `GorillaValue.ReuseExactly` | src/cadent/server/series/gorilla.go:254-285 | the window in force is used again if and only if every set bit of the difference lies inside it |
| `GorillaValue.CostExactly` | src/cadent/server/series/gorilla.go:246-285 | the exact length of a changed value: two bits and the window in force when that holds the difference, otherwise thirteen bits and the bits from the first set one (or the 32nd, if that comes first) to the last |
| `GorillaTime.DodInStep` | src/cadent/server/series/gorilla.go:534-592 | every 32-bit step change is recovered from its code, which ends exactly where it should |
| `GorillaTime.PrefixFree` | src/cadent/server/series/gorilla.go:322-339 | the step codes are prefix-free, and no step of any point can be read as the end record |
| `GorillaTime.ShortestCode` | src/cadent/server/series/gorilla.go:322-339 | the field chosen gives the step change back, and no shorter field of the format does |
| `GorillaTime.EndInStep` | src/cadent/server/series/gorilla.go:181-186 | the end record is recognised as such whatever follows |
| `GorillaLimits.ValueCost` | src/cadent/server/series/gorilla.go:246-285 | a value costs 1 to 77 bits, and one bit exactly when it repeats the value before |
| `GorillaLimits.PointCost` | src/cadent/server/series/gorilla.go:358-406 | a point costs at least 3 bits and at most 499 (422 at second resolution) |
| `GorillaLimits.StreamCost` | src/cadent/server/series/gorilla.go:358-406 | a linear lower and upper bound on the length of every stream |
| `GorillaLimits.RepeatCost` | src/cadent/server/series/gorilla.go:358-406 | a full point costs exactly 7 bits (8 with nanoseconds) if and only if it repeats the values at a steady step; no full point after the first is cheaper |
| `GorillaLimits.EmptyFails` | src/cadent/server/series/gorilla.go:509-533 | a series closed without a point is read as a truncated first point: the iterator yields nothing and stops with an error |
| `GorillaLimits.FirstTimeLayout` | src/cadent/server/series/gorilla.go:297-314 | the time of the first point is 14 bits of the step from the start, followed at full resolution by the coded nanoseconds |
| `GorillaLimits.FirstPointLayout` | src/cadent/server/series/gorilla.go:358-406 | the first point is its time and one bit, then the whole sum, or minimum, maximum, last, sum and count whole and in this order |
| `GorillaLimits.LastValues` | src/cadent/server/series/gorilla.go:358-406 | over every stream the next sum is coded against the sum of the last point, the other values against those of the last point written in full |
| `GorillaLimits.ZeroStampBreaks` | src/cadent/server/series/gorilla.go:297-314 | a zero second stamp at any position before the last, at either resolution and for any start near enough: if the step from the start to the next point begins with a zero bit and that stamp is not the step before (with nanoseconds, not within four seconds after it), the series does not read back, whatever the values and whatever follows |
| `GorillaLimits.ZeroStampNext` | src/cadent/server/series/gorilla.go:534-605 | after a zero stamp such a step is read as unchanged, from any registers in step: the clock goes to the step before |
| `Gorilla.GorillaTimeSeries.constructor` | src/cadent/server/series/gorilla.go:124-144 | a new series holds the header and no point |
| `Gorilla.GorillaTimeSeries.WriteHeader` | src/cadent/server/series/gorilla.go:149-179 | the header bits: tag, number of values, start seconds and nanoseconds |
| `Gorilla.GorillaTimeSeries.CompressValue` | src/cadent/server/series/gorilla.go:246-285 | writes exactly the code whose inverse is proved by ValueInStep and returns the new window |
| `Gorilla.GorillaTimeSeries.AddValue` | src/cadent/server/series/gorilla.go:287-295 | one value slot: raw on the first point, compressed after |
| `Gorilla.GorillaTimeSeries.AddTime` | src/cadent/server/series/gorilla.go:297-356 | writes exactly the time code of the stamp and moves the clock registers |
| `Gorilla.GorillaTimeSeries.WriteDod` | src/cadent/server/series/gorilla.go:322-339 | writes exactly the prefix code of a step change |
| `Gorilla.GorillaTimeSeries.AddPoint` | src/cadent/server/series/gorilla.go:358-406 | the object invariant holds again with the point appended: the stream holds the header and exactly the points, and the registers are those of a writer that went through them |
| `Gorilla.GorillaTimeSeries.Bytes` | src/cadent/server/series/gorilla.go:205-213 | a closed copy of the stream with at most 8 padding bits; the series itself is unchanged |
| `Gorilla.GorillaTimeSeries.Iter` | src/cadent/server/series/gorilla.go:227-229 | an iterator whose pending points are all points added so far, with the lag of RoundTrip, and are exactly as added if and only if the condition of RoundTripExact holds |
| `Gorilla.SetFinished` | src/cadent/server/series/gorilla.go:181-186 | appends the end record |
| `Gorilla.HeadBack` | src/cadent/server/series/gorilla.go:440-503 | every header written is parsed back to its fields |
| `Gorilla.TagsExactly` | src/cadent/server/series/gorilla.go:440-503 | a header is refused if and only if its tag is none of the three, and the old nanosecond tag reads as the new one |
| `Gorilla.NewGorillaIterFromBytes` | src/cadent/server/series/gorilla.go:440-507 | the iterator starts from the header fields and the remaining bits, or reports a short header or a wrong tag |
| `Gorilla.GorillaIter.UncompressValue` | src/cadent/server/series/gorilla.go:607-668 | reads one compressed value as the decoder of ValueInStep does, or reports the end of input |
| `Gorilla.GorillaIter.ReadValue` | src/cadent/server/series/gorilla.go:670-674 | reads one value slot and updates only that slot |
| `Gorilla.GorillaIter.ReadTimeDelta` | src/cadent/server/series/gorilla.go:509-605 | reads one time code, moves the clock, or recognises the end record or the end of input |
| `Gorilla.GorillaIter.Next` | src/cadent/server/series/gorilla.go:676-717 | consumes exactly one pending point; stops cleanly at the end record; a finished or failed iterator stays so |
| `Gorilla.GorillaIter.Values` | src/cadent/server/series/gorilla.go:719-726 | the point the registers stand for |
| `Gorilla.GorillaIter.Drain` | src/cadent/server/series/gorilla.go:676-726 | calling Next until it is false yields all pending points in order, and finished is set exactly when the end record was reached |
| `Float64.CountRoundTrip` | src/cadent/server/series/gorilla.go:719-726 | a count survives the conversion to a float and back if and only if it has at most 53 significant bits |
| `Float64.UintRoundTrip` | src/cadent/server/series/gorilla.go:719-726 | nanoseconds, as any 32-bit number, survive the conversion |
| `Float64.RoundNearest` | src/cadent/server/series/gorilla.go:358-406 | a count of more than 53 bits is rounded to a nearest multiple of the last place, and to an even one of two |
| `Float64.KindsOfFloat` | src/cadent/server/series/utils.go:53-55 | NaN, infinity and zero are told by the numbers in the exponent and fraction fields, as IEEE 754 lays down |
| `Float64.FloatEqLaws` | src/cadent/server/series/utils.go:53-55 | float equality is symmetric and transitive, is false exactly on NaN for a value and itself, and is equality of patterns but for NaN and negative zero |
| `Float64.SameFloatValsExactly` | src/cadent/server/series/utils.go:53-55 | the four values count as the same if and only if every pair of them does; for numbers other than negative zero if and only if the four patterns are the same |
| `Float64.UsableStays` | src/cadent/server/schemas/repr/repr.go:57-62 | a finite number other than the flag is left as it is, everything else becomes zero |
| `Float64.FlagIsNumber` | src/cadent/server/schemas/repr/repr.go:57-62 | the flag is a finite number, -2^63 |
| `Float64.CheckedIsUsable` | src/cadent/server/schemas/repr/repr.go:57-62 | the result is never NaN, infinite or the unset flag, and is the value itself unless that was one of these, else zero |
| `Points.StampRoundTrip` | src/cadent/server/series/utils.go:32-50 | a stamp is recovered from its seconds and nanoseconds if and only if it is zero or in nanoseconds with seconds that fit 32 bits |
| `Points.SmallExactly` | src/cadent/server/series/utils.go:53-55 | which points are written as one value: those of count one, and those whose four values are the same pattern, where none is NaN or negative zero |
| `BitStreams.BitStream.Writer` | src/cadent/server/utils/bitstream.go:50-52 | a new writer has no bits |
| `BitStreams.BitStream.Reader` | src/cadent/server/utils/bitstream.go:46-48 | a new reader has all the bits of its bytes left |
| `BitStreams.BitStream.WriteBit` | src/cadent/server/utils/bitstream.go:75-89 | appends exactly that bit |
| `BitStreams.BitStream.WriteByte` | src/cadent/server/utils/bitstream.go:100-117 | appends exactly those 8 bits at any bit offset |
| `BitStreams.BitStream.WriteBytes` | src/cadent/server/utils/bitstream.go:91-98 | appends the bits of all bytes |
| `BitStreams.BitStream.WriteBits` | src/cadent/server/utils/bitstream.go:119-134 | appends exactly the low n bits, most significant first |
| `BitStreams.BitStream.Clone` | src/cadent/server/utils/bitstream.go:65-69 | a fresh stream with the same bits; the original is unchanged |
| `BitStreams.BitStream.Bytes` | src/cadent/server/utils/bitstream.go:71-73 | the bits written, padded with at most 8 zeros |
| `BitStreams.BitStream.ReadBit` | src/cadent/server/utils/bitstream.go:136-156 | takes the first bit left, or reports the end |
| `BitStreams.BitStream.ReadByte` | src/cadent/server/utils/bitstream.go:179-215 | takes the next 8 bits at any bit offset |
| `BitStreams.BitStream.ReadBytes` | src/cadent/server/utils/bitstream.go:158-177 | takes the next n bytes |
| `BitStreams.BitStream.ReadBits` | src/cadent/server/utils/bitstream.go:217-246 | takes the next n bits as a number, or reports the end |
| `ProtoMessages.StatsRoundTrip` | src/cadent/server/series/protobuf.pb.go:764-864 | every message decodes from its encoding to itself, with negative zero turned into zero |
| `ProtoMessages.StatRoundTrip` | src/cadent/server/series/protobuf.pb.go:628-763 | the same for one record, with either, both or none of its sub-messages |
| `ProtoMessages.ConcatenationMerges` | src/cadent/server/series/protobuf.pb.go:764-864 | two encodings back to back decode to the appended records and the OR of the resolution flags |
| `ProtoMessages.UnknownIgnored` | src/cadent/server/series/protobuf.pb.go:764-963 | a well-formed unknown field of any wire type, groups included, after an encoding and before any other bytes does not change what they decode to |
| `ProtoMessages.StatUnknown` | src/cadent/server/series/protobuf.pb.go:628-763 | the same inside a record |
| `ProtoMessages.FullUnknown` | src/cadent/server/series/protobuf.pb.go:381-540 | the same inside a full stat |
| `ProtoMessages.SmallUnknown` | src/cadent/server/series/protobuf.pb.go:541-627 | the same inside a small stat |
| `ProtoMessages.UnknownFirst` | src/cadent/server/series/protobuf.pb.go:764-864 | an unknown field in front of any bytes does not change what they decode to |
| `ProtoMessages.FullFieldNumbers` | src/cadent/server/series/protobuf.proto:8-15 | the bytes of field 1 set the time, of field 7 the count, of fields 2 to 5 minimum, maximum, sum and last, and no other field |
| `ProtoMessages.SmallFieldNumbers` | src/cadent/server/series/protobuf.proto:18-21 | the bytes of field 1 set the time, of field 2 the value |
| `ProtoMessages.RecordFieldNumbers` | src/cadent/server/series/protobuf.proto:23-32 | in a record field 1 is the type, field 3 the full stat and field 4 the small one; in a series field 1 is the resolution and field 2 appends a record |
| `ProtoMessages.WrongTypeFails` | src/cadent/server/series/protobuf.pb.go:381-864 | a known field of another wire type is an error in every message |
| `ProtoMessages.IllegalTagFails` | src/cadent/server/series/protobuf.pb.go:381-864 | field number zero and the end of a group that was not begun are errors in every message |
| `ProtoMessages.StatsMerges` | src/cadent/server/series/protobuf.pb.go:764-864 | decoding into a message that already has content merges, field by field |
| `ProtoMessages.StatMerges` | src/cadent/server/series/protobuf.pb.go:628-763 | the same for a record, whose sub-messages merge recursively |
| `ProtoMessages.FullMerges` | src/cadent/server/series/protobuf.pb.go:381-540 | decoding a full stat overwrites exactly the fields that were encoded |
| `ProtoMessages.SmallMerges` | src/cadent/server/series/protobuf.pb.go:541-627 | decoding a small stat overwrites exactly the fields that were encoded |
| `ProtoMessages.StatsSize` | src/cadent/server/series/protobuf.pb.go:353-366 | the computed size is the length of the encoding |
| `ProtoMessages.StatSize` | src/cadent/server/series/protobuf.pb.go:336-351 | the computed size of a record is the length of its encoding |
| `ProtoMessages.FullSize` | src/cadent/server/series/protobuf.pb.go:300-322 | the computed size of a full stat is the length of its encoding |
| `ProtoMessages.SmallSize` | src/cadent/server/series/protobuf.pb.go:324-334 | the computed size of a small stat is the length of its encoding |
| `ProtoWire.VarintBack` | src/cadent/server/series/protobuf.pb.go:291-299 | every unsigned 64-bit number is read back from its varint, which ends where it should |
| `ProtoWire.SovIsLength` | src/cadent/server/series/protobuf.pb.go:368-377 | the size function is the length of the varint for every number |
| `ProtoWire.SovTen` | src/cadent/server/series/protobuf.pb.go:368-377 | every negative 64-bit number takes ten bytes |
| `ProtoWire.Fixed64Back` | src/cadent/server/series/protobuf.pb.go:273-283 | the eight little-endian bytes of a float give back its bit pattern |
| `ProtoWire.LittleEndian` | src/cadent/server/series/protobuf.pb.go:273-283 | the eight bytes are the pattern as a number, least significant byte first |
| `ProtoWire.SkipUnknown` | src/cadent/server/series/protobuf.pb.go:865-963 | skipping a well-formed field of any wire type, nested groups included, leaves exactly what follows it |
| `ProtoWire.TruncatedVarint` | src/cadent/server/series/protobuf.pb.go:865-963 | a varint that is cut short is an error, wherever it is cut |
| `ProtoWire.LongVarint` | src/cadent/server/series/protobuf.pb.go:865-963 | ten bytes that all ask for more are an overflow |
| `ProtoWire.BlockExactly` | src/cadent/server/series/protobuf.pb.go:628-763 | a length is an error if it is negative as a 64-bit number or longer than what follows, otherwise exactly that many bytes are taken |
| `ProtoWire.NoSuchWireType` | src/cadent/server/series/protobuf.pb.go:865-963 | a field of wire type 6 or 7 is an error, and a stray end of a group is skipped as a field without content |
| `ProtoCodec.EncodeVarintProtobuf` | src/cadent/server/series/protobuf.pb.go:291-299 | writes the varint into the buffer at the offset and nothing else |
| `ProtoCodec.EncodeFixed64Protobuf` | src/cadent/server/series/protobuf.pb.go:273-283 | writes eight bytes into the buffer at the offset and nothing else |
| `ProtoCodec.SovProtobuf` | src/cadent/server/series/protobuf.pb.go:368-377 | the loop counts the bytes of the varint |
| `ProtoCodec.MarshalFull` | src/cadent/server/series/protobuf.pb.go:119-155 | writes exactly the encoding into the buffer, within bounds, leaving the rest unchanged |
| `ProtoCodec.MarshalSmall` | src/cadent/server/series/protobuf.pb.go:167-183 | writes exactly the encoding into the buffer, within bounds, leaving the rest unchanged |
| `ProtoCodec.MarshalStat` | src/cadent/server/series/protobuf.pb.go:195-231 | writes exactly the encoding, sub-messages with their lengths, within bounds |
| `ProtoCodec.MarshalStats` | src/cadent/server/series/protobuf.pb.go:243-271 | writes exactly the encoding of the whole message within bounds |
| `ProtoCodec.Marshal` | src/cadent/server/series/protobuf.pb.go:233-241 | a buffer of exactly the computed size is filled exactly by the encoding, which decodes to the message |
| `ProtoCodec.SizeOf` | src/cadent/server/series/protobuf.pb.go:353-366 | the size loop computes the length of the encoding |
| `ProtoCodec.WalkVarint` | src/cadent/server/series/protobuf.pb.go:383-400 | the shift loop reads the varint, or reports overflow or end of input |
| `ProtoCodec.SkipProtobuf` | src/cadent/server/series/protobuf.pb.go:865-963 | the skip loop leaves what the skip function leaves, and stops with its errors on truncated fields, illegal wire types and negative lengths |
| `ProtoCodec.UnmarshalFull` | src/cadent/server/series/protobuf.pb.go:381-540 | the field loop computes the decoding of the bytes, or stops with its error for truncated input, a wrong wire type, an illegal tag or a negative length |
| `ProtoCodec.UnmarshalSmall` | src/cadent/server/series/protobuf.pb.go:541-627 | the field loop computes the decoding of the bytes, or stops with its error for truncated input, a wrong wire type, an illegal tag or a negative length |
| `ProtoCodec.UnmarshalStat` | src/cadent/server/series/protobuf.pb.go:628-763 | the field loop computes the decoding of the bytes, or stops with its error for truncated input, a wrong wire type, an illegal tag or a negative length |
| `ProtoCodec.UnmarshalStats` | src/cadent/server/series/protobuf.pb.go:764-864 | the field loop computes the decoding of the bytes, or stops with its error for truncated input, a wrong wire type, an illegal tag or a negative length |
| `GobCode.RoundTripExact` | src/cadent/server/series/gob.go:333-461 | for every sequence of points, at both resolutions: the series decodes to its points if and only if no full point follows a small point whose values differ without a clean small point or a zero stamp in between, and no stamp before the last is zero unless the stored start time is zero |
| `GobCode.StreamExact` | src/cadent/server/series/gob.go:214-278 | the same equivalence from any related writer and reader registers |
| `GobCode.PointRead` | src/cadent/server/series/gob.go:333-461 | one point: what is read, and the registers that result, for any register difference |
| `GobCode.LevelAfter` | src/cadent/server/series/gob.go:385-457 | a full point comes back right exactly when the registers agreed before it |
| `GobCode.CodedAgainstLast` | src/cadent/server/series/gob.go:214-278 | over every stream a point after a non-zero stamp is written as its differences to the point before, small or not: clock, then the sum alone, or minimum, maximum, last, sum and count in this order |
| `GobCode.UnsafeExample` | src/cadent/server/series/gob.go:248-278 | a counterexample: a count of one with different values, then a full point, comes back wrong |
| `GobCode.ZeroStampBreaks` | src/cadent/server/series/gob.go:224-232 | no series with a zero stamp anywhere before its last point comes back, at either resolution, unless the stored start time is zero |
| `GobCode.StampLost` | src/cadent/server/series/gob.go:333-352 | after a zero stamp the reader adds the start time once more than the writer took it off, so the next stamp is wrong, modulo 2^32 at low resolution too |
| `Gob.GobTimeSeries.constructor` | src/cadent/server/series/gob.go:115-153 | a new series holds the header and no point |
| `Gob.GobTimeSeries.AddPoint` | src/cadent/server/series/gob.go:214-278 | the object invariant holds again with the point appended: the stream is exactly the tokens of the points |
| `Gob.GobTimeSeries.Iter` | src/cadent/server/series/gob.go:195-198 | an iterator over a copy of the stream; its pending points are the points added if and only if the sequence is safe, whatever the stamps |
| `Gob.GobIter.constructor` | src/cadent/server/series/gob.go:310-327 | the iterator starts from the header |
| `Gob.GobIter.Next` | src/cadent/server/series/gob.go:333-461 | consumes exactly one point of the stream or ends for good |
| `Gob.GobIter.Values` | src/cadent/server/series/gob.go:463-469 | the point the registers stand for |
| `Gob.GobIter.Drain` | src/cadent/server/series/gob.go:333-469 | calling Next until it is false yields all pending points in order |
| `ListSeries.ReprTimeSeries.AddPoint` | src/cadent/server/series/repr.go:116-134 | appends the point with unusable floats replaced by zero (CheckedExactly), and keeps the least and greatest stamp |
| `ListSeries.CheckedExactly` | src/cadent/server/series/repr.go:116-134 | stamp and count stay, and each of the four values stays if it is a finite number other than the flag and else is zero |
| `ListSeries.ReprTimeSeries.Iter` | src/cadent/server/series/repr.go:85-92 | an iterator with the whole list left |
| `ListSeries.ReprIter.Next` | src/cadent/server/series/repr.go:187-194 | takes the next point of the list or reports the end |
| `ListSeries.BytesKeepPoints` | src/cadent/server/series/protobuf.go:226-252 | values extracted from the byte round trip equal the points if and only if no stored float is a negative zero |
| `ListSeries.MemoryKeepsPoints` | src/cadent/server/series/protobuf.go:89-98 | values extracted from the list in memory equal the points, always |
| `ListSeries.ProtobufTimeSeries.AddPoint` | src/cadent/server/series/protobuf.go:122-171 | the record list stands for the points with this one appended, the running length is the sum of the record sizes, and the start and current time are the least and greatest stamp |
| `ListSeries.StatKeepsNames` | src/cadent/server/series/protobuf.go:122-171 | a record keeps each value of a full point under its own name, and of a small one the time and the sum |
| `ListSeries.ProtobufTimeSeries.Bytes` | src/cadent/server/series/protobuf.go:76-83 | bytes that decode to the records and, if and only if there is no negative zero, to the points |
| `ListSeries.ProtobufTimeSeries.Iter` | src/cadent/server/series/protobuf.go:89-98 | an iterator that will yield every point |
| `ListSeries.NewProtobufIterFromBytes` | src/cadent/server/series/protobuf.go:194-206 | an iterator over the decoded records, or the decoding error |
| `ListSeries.ProtobufIter.Next` | src/cadent/server/series/protobuf.go:217-224 | takes the next record or reports the end |
| `ListSeries.ProtobufIter.Values` | src/cadent/server/series/protobuf.go:226-252 | the point a record stands for, stamps turned back into nanoseconds |
| `ListSeries.ProtobufIter.Drain` | src/cadent/server/series/protobuf.go:217-252 | calling Next until it is false yields all points in order |
| `Dispatch.NothingLost` | src/cadent/server/dispatch/dispatch.go:203-223 | after any interleaving of adds, routine steps and a shutdown, every added job is completed or in exactly one place counted with multiplicity, deliveries follow the order of sends on the queue, and the queue never exceeds its length |
| `Dispatch.OneHolder` | src/cadent/server/dispatch/dispatch.go:93-121 | if each job is added once, no two workers ever have the same job, and a job a worker has is not completed, queued or in the dispatcher's hand |
| `Dispatch.PickedInOrder` | src/cadent/server/dispatch/dispatch.go:102-103 | over every run the workers are given jobs in the order in which they registered, and those not yet picked wait in that order |
| `Dispatch.RunInv` | src/cadent/server/dispatch/dispatch.go:174-185 | every run keeps the invariant: a worker's channel is in the pool at most once and only while it listens or was stopped, the dispatcher sends only to a listening worker outside the pool, and workers stop in order |
| `Dispatch.StepInv` | src/cadent/server/dispatch/dispatch.go:93-121 | every single step keeps that invariant |
| `Dispatch.RegisterNeverBlocks` | src/cadent/server/dispatch/dispatch.go:102-103 | the pool channel always has room for a worker that registers |
| `Dispatch.RunsEnd` | src/cadent/server/dispatch/dispatch.go:100-119 | without new jobs a run has at most a stated number of steps plus six for each failure, so with finitely many failures every run comes to rest |
| `Dispatch.StoppedForever` | src/cadent/server/dispatch/dispatch.go:213-222 | once the dispatcher is stopping it stays so, gives out no job and leaves those in the queue, over every run |
| `Dispatch.ShutdownLeavesJobs` | src/cadent/server/dispatch/dispatch.go:213-222 | a shutdown does not wait for the queue: for every number of workers and every number of jobs that fit, a run shuts down with all of them queued, and however it goes on none is given out |
| `Dispatch.StepCost` | src/cadent/server/dispatch/dispatch.go:100-119 | every step but a failure uses up the progress measure |
| `Dispatch.StuckExactly` | src/cadent/server/dispatch/dispatch.go:203-223 | no routine can move if and only if all is finished, or the dispatcher holds a job while every worker waits to put a failed job back on a full queue, or a shutdown has ended or waits for such a worker |
| `Dispatch.AllComplete` | src/cadent/server/dispatch/dispatch.go:203-223 | with a worker and at most queue length plus workers jobs outstanding, and no shutdown, once the routines come to rest every added job is completed |
| `Dispatch.DeadlockIsFull` | src/cadent/server/dispatch/dispatch.go:116-119 | a deadlock has exactly queue length plus workers plus one jobs outstanding |
| `Dispatch.BoundIsTight` | src/cadent/server/dispatch/dispatch.go:116-119 | for every number of workers and every queue length a run with one job more reaches a state where nothing is completed and nothing can move |
| `LruModel.AlwaysSound` | src/cadent/server/lrucache/lrucache.go:185-219 | after any run keys are distinct and the wrapping size counter is the true sum of sizes modulo 2^64 |
| `LruModel.EvictSound` | src/cadent/server/lrucache/lrucache.go:208-219 | the capacity check never meets an empty list, and keeps the counter true |
| `LruModel.EvictExactly` | src/cadent/server/lrucache/lrucache.go:208-219 | an entry is evicted if and only if the total exceeds the capacity (totals below 2^64), and it is the one at the back of the list |
| `LruModel.CapacityIsLast` | src/cadent/server/lrucache/lrucache.go:137-143 | the capacity in force after any run is the one set last |
| `LruModel.AlwaysByRecency` | src/cadent/server/lrucache/lrucache.go:195-198 | after any run the list is in the order of last use, computed from the operations alone |
| `LruModel.OnlyOldestLeaves` | src/cadent/server/lrucache/lrucache.go:208-219 | a key that leaves other than by deletion or clearing was used before every key that stays |
| `LruModel.StepKeys` | src/cadent/server/lrucache/lrucache.go:79-143 | after an operation exactly the keys asked for are there, less the one at the back of the list if and only if the operation looks at the capacity and the total exceeds it (totals below 2^64) |
| `LruModel.HitIsLastWritten` | src/cadent/server/lrucache/lrucache.go:79-110 | after any run a key that is present holds the value last written to it |
| `LruModel.EqualSizesFit` | src/cadent/server/lrucache/lrucache.go:208-219 | with values of one size and a fixed capacity the true total never exceeds the capacity |
| `LruModel.FitsExactly` | src/cadent/server/lrucache/lrucache.go:185-219 | every operation that looks at the capacity (a set of a new or present key, a set-if-absent of a new key, a change of capacity) ends within it if and only if the total before the eviction exceeds it by no more than the least recently used entry |
| `LruModel.SetFitsExactly` | src/cadent/server/lrucache/lrucache.go:200-219 | for a set of a new key: if and only if the value is no larger than the free room plus the least recently used entry |
| `LruModel.StoredSum` | src/cadent/server/lrucache/lrucache.go:185-206 | a store changes the true total by the new size less the size the key had |
| `LruModel.OverCapacity` | src/cadent/server/lrucache/lrucache.go:208-219 | a counterexample: three sets of sizes 1, 1 and 3 leave a total of 4 in a cache of capacity 3 |
| `LruCache.LRUCache.TableIsList` | src/cadent/server/lrucache/lrucache.go:38-40 | the table answers membership and lookup for the list |
| `LruCache.LRUCache.Get` | src/cadent/server/lrucache/lrucache.go:79-89 | a hit returns the stored value and moves the entry to the front; a miss changes nothing |
| `LruCache.LRUCache.Set` | src/cadent/server/lrucache/lrucache.go:91-99 | the new state is that of the set operation; an entry is evicted and returned if and only if the total with the new value exceeds the capacity (totals below 2^64), and it is the back of the list |
| `LruCache.LRUCache.SetIfAbsent` | src/cadent/server/lrucache/lrucache.go:101-110 | a present key is only moved to the front |
| `LruCache.LRUCache.Delete` | src/cadent/server/lrucache/lrucache.go:112-125 | removes exactly that key and returns its value |
| `LruCache.LRUCache.Clear` | src/cadent/server/lrucache/lrucache.go:127-135 | empties list, table and counter |
| `LruCache.LRUCache.SetCapacity` | src/cadent/server/lrucache/lrucache.go:137-143 | changes the capacity and evicts at most one entry |
| `LruCache.LRUCache.UpdateInplace` | src/cadent/server/lrucache/lrucache.go:185-193 | replaces the value and size of an entry that list and table share, with the wrapping size difference |
| `LruCache.LRUCache.MoveToFront` | src/cadent/server/lrucache/lrucache.go:195-198 | the list keeps its entries, this one first |
| `LruCache.LRUCache.AddNew` | src/cadent/server/lrucache/lrucache.go:200-206 | a new entry at the front of the list and in the table |
| `LruCache.LRUCache.CheckCapacity` | src/cadent/server/lrucache/lrucache.go:208-219 | evicts the back of the list, once, if and only if the total exceeds the capacity (totals below 2^64) |
| `HasherModel.PoolRingAndCacheAgree` | src/cadent/server/hasherpool.go:176-216 | after any run of adds, drops, re-adds, purges of servers that are not dropped and lookups, under either down policy: active and dropped servers are disjoint, the ring has exactly the hash keys of the live servers, and every lookup answers, one for one, with the servers of the keys that the ring gives for that key and number, all of them live |
| `HasherModel.RunAgrees` | src/cadent/server/serverpool.go:216-302 | the same agreement is kept from any state that has it |
| `HasherModel.StepCoherent` | src/cadent/server/hasherpool.go:91-144 | every step keeps each cached answer equal to the ring's answer |
| `HasherModel.StepAgree` | src/cadent/server/serverpool.go:216-302 | every step keeps pool, maps and ring in agreement |
| `HasherModel.CompositeInjective` | src/cadent/server/hasherpool.go:178-185 | two lookups share a cache entry if and only if the keys are equal and the numbers agree modulo 65536 |
| `HasherModel.LargeNumbersCollide` | src/cadent/server/hasherpool.go:178-185 | the second of two lookups that share an entry returns what the first one asked for |
| `HasherModel.LargeNumbersBreak` | src/cadent/server/hasherpool.go:178-185 | for any two different numbers equal modulo 65536 there is a ring and, for every capacity, policy and key, a run of one add and one lookup after which the lookup of the other number is wrong: the guard below 65536 cannot be widened |
| `HasherModel.AskCoherent` | src/cadent/server/hasherpool.go:176-216 | a lookup below 65536 answers with the servers of the keys that the ring gives for that key and number, one for one, and leaves the cache coherent, eviction included |
| `HasherModel.DropConserves` | src/cadent/server/serverpool.go:282-302 | a drop conserves the servers of the pool and removes exactly that one from the active list; a stale pointer changes nothing |
| `HasherModel.ReAddConserves` | src/cadent/server/serverpool.go:216-233 | re-adding conserves the servers of the pool |
| `HasherModel.DropThenReAdd` | src/cadent/server/serverpool.go:216-302 | dropping a server and re-adding moves it behind all others, restores the ring to all servers and changes no map |
| `HasherModel.RunMeasured` | src/cadent/server/hasherpool.go:176-216 | after any run the size of each cached answer is its number of servers, so the capacity of the cache is a number of servers |
| `HasherModel.AddExactly` | src/cadent/server/hasherpool.go:134-144 | an add keeps pool, maps and ring in agreement if and only if the server is known already or its hash key is not in use |
| `HasherModel.AddsInOrder` | src/cadent/server/hasherpool.go:134-144 | servers that are added come behind those already active, each once, in the order of the first add |
| `HasherModel.PurgeExactly` | src/cadent/server/hasherpool.go:120-132 | a purge keeps pool, maps and ring in agreement if and only if the server is not a dropped one |
| `HasherModel.PurgeDroppedThenReAdd` | src/cadent/server/hasherpool.go:120-132 | a counterexample for every ring: purging a dropped server and re-adding leaves the empty string as the ring's only member |
| `HasherModel.PurgeDroppedIsStale` | src/cadent/server/hasherpool.go:120-132 | when down servers stay in the ring, purging a dropped one leaves cached answers that name it while the ring's answer no longer does |
| `HasherPool.ConstHasher.OnServerUp` | src/cadent/server/hasherpool.go:91-104 | the server's hash key joins the ring and the cache is emptied |
| `HasherPool.ConstHasher.OnServerDown` | src/cadent/server/hasherpool.go:106-118 | the server's hash key leaves the ring and the cache is emptied |
| `HasherPool.ConstHasher.PurgeServer` | src/cadent/server/hasherpool.go:120-132 | the new state is that of the purge step, and whether the server was known |
| `HasherPool.ConstHasher.AddServer` | src/cadent/server/hasherpool.go:134-144 | the new state is that of the add step: once per server |
| `HasherPool.ConstHasher.GetN` | src/cadent/server/hasherpool.go:176-216 | returns the cached or fresh list, fills the cache on a miss even after an error, reports an error on a miss only; from a coherent cache the list is, one for one, the servers of the keys the ring gives for that key and number |
| `HasherPool.CheckedServerPool.ReAddAllDroppedServers` | src/cadent/server/serverpool.go:216-233 | the loop computes the re-add step |
| `HasherPool.CheckedServerPool.AddServer` | src/cadent/server/serverpool.go:235-250 | the server is brought up and listed as active |
| `HasherPool.CheckedServerPool.PurgeServer` | src/cadent/server/serverpool.go:254-280 | the loop takes down and removes every active server with that URL, and says whether there was one |
| `HasherPool.CheckedServerPool.DropServer` | src/cadent/server/serverpool.go:282-302 | the loop computes the drop step, a no-op for a pointer that matches none |
| `RollUp.RollUpCommutes` | src/cadent/server/accumulator/carbontwo.go:261-332 | when the coarse width is a multiple of the fine one, after any run of lines and flushes that leaves nothing unflushed the coarse map equals the map of feeding all lines directly: same keys and bins, same minimum, maximum, sum and count, whatever order each flush lists its items in |
| `RollUp.CountConserved` | src/cadent/server/accumulator/carbontwo.go:261-332 | the counts of the coarse map over all its keys add up to the number of lines |
| `Cascade.CascadeCommutes` | src/cadent/server/accumulator/carbontwo.go:261-332 | the same along a chain of any length: lines into the finest level, each level flushed into the next at any moments; once all levels but the last are empty, the last equals feeding all lines to it directly |
| `Cascade.RunInv` | src/cadent/server/accumulator/carbontwo.go:261-332 | at every moment of such a run each level stands for a stretch of the lines, the coarser the older, and together they are all of them in order |
| `Cascade.AcceptedIsChain` | src/cadent/server/accumulator/config.go:136-146 | every accepted list of positive resolutions is such a chain |
| `RollUp.BinTwice` | src/cadent/server/accumulator/carbontwo.go:171-173 | the coarse bin of a fine bin's start is the coarse bin of the time |
| `RollUp.Bin` | src/cadent/server/accumulator/carbontwo.go:171-173 | the bin holds the time and lies on the grid counted from year 1; with no width it is the time itself |
| `RollUp.ToTime` | src/cadent/server/schemas/repr/repr.go:395-402 | a flushed stamp up to 2147483647 is read as whole seconds, any other as itself; it reads back as itself if and only if it is past 2147483647 nanoseconds or zero |
| `RollUp.YearOne` | src/cadent/server/accumulator/carbontwo.go:171-173 | the grid starts at year 1 of the proleptic Gregorian calendar |
| `CarbonTwo.RollExactly` | src/cadent/server/accumulator/carbontwo.go:76-94 | rolling a flushed bin into another equals adding its values if and only if the flushed sum is not the flag value and the bin is not empty (or zero is already within range) |
| `CarbonTwo.AccumulateSummary` | src/cadent/server/accumulator/carbontwo.go:127-146 | an item fed with values holds their minimum, maximum, sum and count |
| `CarbonTwo.FedIsSummary` | src/cadent/server/accumulator/carbontwo.go:127-146 | an item fed with any values holds the minimum, maximum, sum and count of the finite ones, in order |
| `CarbonTwo.TakeExactly` | src/cadent/server/accumulator/carbontwo.go:275-332 | a stat of count one adds its sum as one value whatever its minimum and maximum; any other brings in its own minimum, maximum, sum and count |
| `CarbonTwo.SummaryPermutes` | src/cadent/server/accumulator/carbontwo.go:127-146 | the order of the values does not matter |
| `CarbonTwo.EmptyBinLowersMin` | src/cadent/server/accumulator/carbontwo.go:63-73 | a counterexample: a bin that saw no finite value is flushed as zeroes and lowers the minimum |
| `CarbonTwo.FlagSumIsLost` | src/cadent/server/accumulator/carbontwo.go:63-73 | a counterexample: a bin whose values sum to the flag is flushed with sum zero |
| `RollUp.CarbonTwoAccumulate.ProcessLine` | src/cadent/server/accumulator/carbontwo.go:350-452 | a parsed line is accumulated into its key and bin and no other |
| `RollUp.CarbonTwoAccumulate.ProcessRepr` | src/cadent/server/accumulator/carbontwo.go:275-332 | a stat of count one is accumulated as a value, any other is merged, into its key and bin and no other |
| `RollUp.CarbonTwoAccumulate.FlushList` | src/cadent/server/accumulator/carbontwo.go:232-271 | every item is handed on exactly once, in some order, and the map is empty after |
| `RollUp.RollUpInto` | src/cadent/server/accumulator/carbontwo.go:261-332 | flushing one accumulator into another is exactly the flush step of a run, in some order of the items |
| `BinKeys.MapKeyExactly` | src/cadent/server/accumulator/carbontwo.go:175-177 | for all bins, two stats share a map key if and only if name and bin are equal, or the bins are opposite and the name of the later one is the other's with a dash added |
| `BinKeys.SignedKey` | src/cadent/server/accumulator/carbontwo.go:175-177 | every stat before 1970 shares its map key with one after 1970 |
| `BinKeys.NaturalBack` | src/cadent/server/accumulator/carbontwo.go:175-177 | the digits of a bin are its decimal numeral |
| `RollUp.CheckTimes` | src/cadent/server/accumulator/config.go:136-146 | a list of whole seconds is accepted if and only if each resolution after a positive one is a multiple of it and no shorter |
| `RollUp.MultiplesChain` | src/cadent/server/accumulator/config.go:136-146 | in an accepted list every resolution is a multiple of every earlier one, in seconds as in the nanoseconds of the bins |
| `Statsd.StatsdTimerStatItem.Accumulate` | src/cadent/server/accumulator/statsd.go:267-292 | the running count, sum, minimum and maximum stay those of the values, non-finite values being ignored |
| `Statsd.StatsdTimerStatItem.ZeroOut` | src/cadent/server/accumulator/statsd.go:294-304 | no values, fresh aggregates |
| `Statsd.StatsdTimerStatItem.Cumulative` | src/cadent/server/accumulator/statsd.go:330-341 | the running sums, started from the minimum, are the prefix sums of the sorted values |
| `Statsd.StatsdTimerStatItem.ThresholdLine` | src/cadent/server/accumulator/statsd.go:403-433 | the line taken from the running sums is the line defined by the covered values |
| `Statsd.StatsdTimerStatItem.Write` | src/cadent/server/accumulator/statsd.go:403-433 | sorts the values and reports one line for each threshold that covers some (CoveredExactly), in the order of the thresholds, or fails where one reads outside the values |
| `Statsd.LineIsExtreme` | src/cadent/server/accumulator/statsd.go:418-433 | the sum of a positive threshold is the least, of a negative one the greatest, among all choices of that many of the values |
| `Statsd.BoundarySeparates` | src/cadent/server/accumulator/statsd.go:418-433 | the boundary is one of the covered values and separates them from the others |
| `Statsd.LineMean` | src/cadent/server/accumulator/statsd.go:432-433 | the mean times the number of covered values is the sum |
| `Statsd.ThresholdsGrow` | src/cadent/server/accumulator/statsd.go:403-433 | a larger positive fraction reports an upper boundary and a mean at least as large, and no mean exceeds the mean of all values |
| `Statsd.LinesExactly` | src/cadent/server/accumulator/statsd.go:418-433 | the report fails if and only if some threshold reads outside the values |
| `Statsd.InRange` | src/cadent/server/accumulator/statsd.go:418-433 | positive thresholds up to 100 percent never read outside the values, a negative one of 100 percent always does |
| `Statsd.CoveredGrows` | src/cadent/server/accumulator/statsd.go:408-419 | a larger fraction covers at least as many values |
| `Statsd.CoveredExactly` | src/cadent/server/accumulator/statsd.go:408-419 | a threshold of absolute value p covers the number nearest to p percent of the values, or to p times their number when p is below 1, halves upwards |
| `Statsd.LinesInOrder` | src/cadent/server/accumulator/statsd.go:408-433 | the lines are those of the thresholds that cover a value, in their order, each the line defined by the covered values |
| `Statsd.OneValueLine` | src/cadent/server/accumulator/statsd.go:403-433 | with a single value every threshold reports it as sum, mean and boundary |
| `Statsd.ReadsOutside` | src/cadent/server/accumulator/statsd.go:418-433 | a threshold reads outside the values if and only if one of the positions it uses is not one of theirs |
| `Statsd.Round` | src/cadent/server/accumulator/statsd.go:50-55 | the nearest integer, halves away from zero |
| `Statsd.Ordered` | src/cadent/server/accumulator/statsd.go:334-334 | a sorted permutation of the values |
| `Buffered.RunConserves` | src/cadent/server/netpool/buffered.go:124-169 | over every run, across reconnects, the bytes out followed by the buffer are the messages whose write returned no error, in order, if and only if no failing network write let bytes through; in general they are more by exactly the number of those bytes |
| `Buffered.RunLeaks` | src/cadent/server/netpool/buffered.go:124-169 | over every run the bytes out are the good network writes in order with the leaked parts in between; the leaked parts have the counted number of bytes, and each is the start of the next good write, or of the buffer when none has followed |
| `Buffered.RunWhole` | src/cadent/server/netpool/buffered.go:124-169 | over every run each successful network write and the buffer is a run of whole accepted messages, together all of them in order |
| `Buffered.TriesExactly` | src/cadent/server/netpool/buffered.go:124-169 | a write goes to the network if and only if the connection is live and the message does not fit behind what is held, and is otherwise only kept; a flush if and only if the connection is live and something is held |
| `Buffered.DeliversExactly` | src/cadent/server/netpool/buffered.go:124-169 | an event delivers nothing without a network write, what is held after a good one, and as many of its first bytes as the network took after a failing one |
| `Buffered.LiveExactly` | src/cadent/server/netpool/buffered.go:124-169 | the connection is live after an event if and only if it was set so, or was live and no network write failed other than a flush that timed out |
| `Buffered.DeadIsSilent` | src/cadent/server/netpool/buffered.go:124-169 | over every run nothing goes out while the connection is not live |
| `Buffered.BufferedNetpoolConn.Write` | src/cadent/server/netpool/buffered.go:124-145 | the new state, the error and the bytes out; after a write without error on a live connection the buffer is within its size or is the message alone |
| `Buffered.BufferedNetpoolConn.Flush` | src/cadent/server/netpool/buffered.go:147-169 | a timeout keeps the connection, another error closes it, both keep the buffer |

## Left out

- GorillaRoundTrip.RoundTrip: points whose second stamp is zero, other than the last one, are excluded: the writer starts over while the reader goes on, and whether the stream then still reads back depends on its bits; ZeroStampBreaks gives a family where it does not.
- Statsd.StatsdTimerStatItem.Write: values equal to -2^63, the code's unset flag, are excluded; medians, deviations, rates and names are not modelled.
- RollUp.RollUpCommutes: non-finite values, values and bin sums equal to the -2^63 flag, and bins in the first 2.1 seconds of 1970 or before it are excluded (RollExactly and ToTime give the exact conditions); the last value of a bin is not tracked.
- Cascade.CascadeCommutes: the same values, sums and bins are excluded as for RollUpCommutes, at every level that is flushed.
- HasherModel.PoolRingAndCacheAgree: hash keys are unique, dropped servers are not purged and lookups ask for fewer than 65536 servers; AddExactly, PurgeExactly and LargeNumbersBreak show that each of these is needed.
- Gorilla.NewGorillaIterFromBytes: a header with a number of values other than five is reported as an error of its own, since writer and reader do not share a format there; that the reader shifts the caller's bytes in place is not modelled.
- LruCache.LRUCache.MoveToFront: the links of the Go list are not modelled, the list is a sequence of shared entries; access times are left out.
- Dispatch.NothingLost: the retries of one job with back-off are one step that succeeds or fails; nil jobs and the background variant of the dispatcher are left out.
- HasherPool.ConstHasher.GetN: the single-server lookup that shares the same cache, counters and log lines are left out.
- HasherPool.ConstHasher.Create: the pool starts empty and servers are added one by one; reading them from a configuration is left out. URLs are strings.
- LruModel.FitsExactly: totals of 2^64 or more, at which the counter wraps, and a negative size of the oldest entry are excluded.
- ProtoCodec.SkipProtobuf: buffer offsets are unbounded integers; a length near 2^63 overflows the offset in the code, which then fails on the slice, where the model reports the end of input. It is called on non-empty bytes only.
- ProtoCodec.UnmarshalFull: a length near 2^63 in a skipped field, as for SkipProtobuf.
- ProtoCodec.UnmarshalSmall: a length near 2^63 in a skipped field, as for SkipProtobuf.
- ProtoCodec.UnmarshalStat: a length near 2^63, as for SkipProtobuf.
- ProtoCodec.UnmarshalStats: a length near 2^63, as for SkipProtobuf.
- Gob.GobTimeSeries.AddPoint: the gob library's bytes are typed tokens; encoding errors are left out.
- RollUp.CarbonTwoAccumulate.ProcessLine: starts from a parsed line with its unique key; items are values in a map by name and bin, which MapKeyExactly relates to the code's string keys; keeping keys across a flush is left out.
- RollUp.CheckTimes: resolutions are whole seconds; for parts of a second the code takes the remainder of floats, which can reject a multiple.
- The consistent-hash ring itself, which is a library; only what is said of its members is relied on.
- Finish, Len, Copy, resampling and merging of series, and the snappy, zip, msgpack and JSON series: wrappers around the same points.
- Health checks, sockets, HTTP, Kafka, gossip, configuration files, formatters, splitters, filters and statistics pages: input and output.
