# Wayk Now protocol core, modelled in Dafny

This project models the core of the Wayk Now remote-desktop protocol crates and proves properties of the model. The model covers four groups of code.

- **The wire layer** (`wayk_proto`): the read cursor and the `write_all` loop, the little-endian primitives, the bit-flag words, the count-prefixed containers, the bounded `NowString` types, the error type and its combinators, the packet header, packets, and the packet accumulator.
- **The messages**: every message body of the connection sequence (handshake, negotiate, authenticate, associate, capabilities and their capsets, channel, activate, terminate) and of the session (input with its Unicode events, surface, update, system, sharing, access control, mouse tables), the status word, the rectangles, the clipboard, chat, exec and file-transfer virtual channels, the PFP authentication tokens, and the GFWX image header of `wayk_core`.
- **The state machines**: the five sub-machines of the client connection sequence and the sequencer that runs them; the clipboard and chat channel machines; the channels manager; the sharee; and the dummy machines of `sm/mod.rs`.
- **The command-line client** (`wayk_cli_client`): its configuration parser and its authentication machine.

Codecs are functions from the unread bytes to a value and the bytes left after it. Each codec carries a round-trip lemma: what the encoder writes, the decoder reads back, leaving what follows untouched. The source's test vectors are lemmas over the same bytes. State machines whose fields the source updates in place are classes. Their update methods are specified by functions from the old state to the new state and the events pushed, and those functions carry the machine's promises.

Where the code as written does not do what it evidently intends, the model keeps both versions and lists the pair under "## Findings". The as-written version comes with a lemma that exhibits the discrepancy on a concrete or general input. The corrected version carries the intended property, and it is the one the rest of the model uses.

## Model

| member | source | states |
|---|---|---|
| Io.TakeUInt | wayk_proto/src/io.rs:286-324 | `read_u8`…`read_u64` on the unread bytes: a value exactly when `width` bytes remain, below 256^width, the rest being what follows; otherwise `UnexpectedEof` |
| Io.TakeInt | wayk_proto/src/io.rs:326-364 | `read_i8`…`read_i64`: a value exactly when `width` bytes remain, within the signed range of the width |
| Io.TakeUIntOfLeBytes | wayk_proto/src/io.rs:286-324 | reading a value back from its own little-endian bytes gives it and leaves what follows |
| Io.TakeIntOfLeBytes | wayk_proto/src/io.rs:326-364 | reading a signed value back from its two's-complement bytes gives it and leaves what follows |
| Io.PeekUIntAsWrittenNeverReturnsValue | wayk_proto/src/io.rs:220-245 | as written, `peek_u16/32/64` never yield a value: they panic when `width - 1` bytes remain, else report end of input |
| Io.PeekU32PanicsOnFourBytes | wayk_proto/src/io.rs:229-236 | on the four bytes `[1,0,0,0]`, `peek_u32` panics while `read_u32` reads 1 |
| Io.PeekAsWritten | wayk_proto/src/io.rs:220-245 | as written: whenever it returns instead of panicking, it returns an I/O error, never a value |
| Io.PeekUInt | wayk_proto/src/io.rs:220-245 | the corrected peek returns exactly the value the next read of that width would return, without consuming |
| Io.Cursor.constructor | wayk_proto/src/io.rs:198-200 | a cursor over the bytes at position 0 |
| Io.Cursor.SetPosition | wayk_proto/src/io.rs:206-208 | the position becomes the given one, unchecked |
| Io.Cursor.PeekU8 | wayk_proto/src/io.rs:211-218 | the byte at the position exactly when one remains, else `UnexpectedEof` |
| Io.Cursor.PeekUIntAsWritten | wayk_proto/src/io.rs:220-245 | as written: the peek either panics or reports end of input, never a value |
| Io.Cursor.PeekUInt | wayk_proto/src/io.rs:220-245 | corrected peek: ok exactly when `width` bytes remain; the little-endian value of those bytes, the one `read` would return |
| Io.Cursor.PeekRest | wayk_proto/src/io.rs:247-252 | the bytes from the position on, or an error when the position is past the end |
| Io.Cursor.PeekN | wayk_proto/src/io.rs:254-259 | the next `n` bytes exactly when that many remain |
| Io.Cursor.Rewind | wayk_proto/src/io.rs:266-268 | moves back by `len`; panics exactly when that would go below zero |
| Io.Cursor.Forward | wayk_proto/src/io.rs:271-273 | moves forward by `len`, unchecked |
| Io.Cursor.ReadN | wayk_proto/src/io.rs:276-284 | the next `n` bytes and the position past them exactly when they exist; on error the position stays |
| Io.Cursor.ReadUInt | wayk_proto/src/io.rs:286-324 | the little-endian value of the next `width` bytes and the position past them exactly when they exist; agrees with `TakeUInt`; on error the position stays |
| Io.Cursor.ReadInt | wayk_proto/src/io.rs:326-364 | the two's-complement value of the next `width` bytes, position advanced; on error the position stays |
| Io.Cursor.ReadRest | wayk_proto/src/io.rs:366-374 | all remaining bytes, the position moved to the end |
| Io.WriteAllOutcome | wayk_proto/src/io.rs:109-124 | what `write_all` returns against a writer's successive replies, and how many bytes it got accepted (never more than the buffer) |
| Io.WriteAllOutcomeProperties | wayk_proto/src/io.rs:109-124 | success means the whole buffer was written; a failure is never `Interrupted` (interrupted writes are retried) |
| Io.ScriptedWriter.Write | wayk_proto/src/io.rs:105 | one `write`: the writer keeps exactly the accepted prefix of the buffer |
| Io.ScriptedWriter.WriteAll | wayk_proto/src/io.rs:109-124 | the loop's result and the bytes written are those of `WriteAllOutcome`; what is written is a prefix of the buffer |
| Io.ScriptedWriter.WriteUInt | wayk_proto/src/io.rs:126-140 | `write_u8`…`write_u64`: `write_all` of the little-endian bytes |
| Io.ScriptedWriter.WriteInt | wayk_proto/src/io.rs:142-156 | `write_i8`…`write_i64`: on success the two's-complement bytes are appended |
| MessageTypes.FromByte | wayk_proto/src/message/mod.rs:21-64 | the declared values map to their variants, any other byte to `Other` carrying it |
| MessageTypes.ByteRoundTrip | wayk_proto/src/message/mod.rs:21-64 | every byte reads as a type that writes back as that byte |
| MessageTypes.TypeRoundTrip | wayk_proto/src/message/mod.rs:21-64 | every canonical type (no `Other` spelling a declared value) writes and reads back as itself |
| MessageTypes.EncodeBodyType | wayk_proto/src/message/mod.rs:106-127 | a body type is always one byte |
| ChannelNames.FromStr | wayk_proto/src/message/connection_sequence/channel.rs:97-109 | the name a decoded string stands for spells that string and is canonical |
| ChannelNames.FromStrOfAsStr | wayk_proto/src/message/connection_sequence/channel.rs:97-127 | a name survives `as_str` then decoding exactly when it is canonical |
| ChannelNames.UnknownChatDecodesAsChat | wayk_proto/src/message/connection_sequence/channel.rs:97-109 | `Unknown("NowChat")` reads back as `Chat` |
| ChannelNames.LessIsStrictTotalOrder | wayk_proto/src/message/connection_sequence/channel.rs:67-75 | the derived `Ord` (variant, then name text) is irreflexive, transitive, total and asymmetric |
| Errors.FromKind | wayk_proto/src/error.rs:146-154 | the error of a bare kind, without description or source |
| Errors.FromIo | wayk_proto/src/error.rs:156-160 | an I/O error becomes kind `Io` without description or source |
| Errors.FromUtf8Error | wayk_proto/src/error.rs:162-166 | a UTF-8 error becomes kind `FromUtf8` |
| Errors.FromIntError | wayk_proto/src/error.rs:168-172 | an integer conversion error becomes kind `IntConversion` |
| Errors.Fail | wayk_proto/src/error.rs:19-21 | `ProtoError::new`: an error carrying just the kind |
| Errors.Lift | wayk_proto/src/error.rs:156-160 | `?` on an I/O result: values pass, errors become `Io` errors |
| Errors.Chain | wayk_proto/src/error.rs:131-138 | values pass; an error becomes a new one of the given kind whose source is the old error |
| Errors.OrDesc | wayk_proto/src/error.rs:106-122 | values pass; kind and source kept; the description is set, or the new one is put in front of the old |
| Errors.OrElseDesc | wayk_proto/src/error.rs:95-104 | `or_desc` with a description computed only on error |
| Errors.WithSource | wayk_proto/src/error.rs:124-129 | values pass; the source is replaced, kind and description kept |
| Errors.OptionChain | wayk_proto/src/error.rs:140-144 | `Some` becomes the value; `None` the bare kind |
| Errors.ChainKeepsSource | wayk_proto/src/error.rs:49-66 | chaining nests one level deeper, and the display ends with the old error's display as its source |
| Errors.OrDescKeepsDescription | wayk_proto/src/error.rs:106-122 | an earlier description is never lost: it stays as the bracketed suffix of the new one |
| Errors.Display | wayk_proto/src/error.rs:49-63 | the kind's text comes first; a bare error shows only it; with a source the display is longer than the source's own display |
| Serialization.EncodeUInt | wayk_proto/src/serialization.rs:81-153 | an unsigned integer of `width` bytes encodes to exactly `width` bytes |
| Serialization.EncodeInt | wayk_proto/src/serialization.rs:161-233 | a signed integer encodes to exactly `width` bytes |
| Serialization.DecodeUInt | wayk_proto/src/serialization.rs:91-159 | ok exactly when `width` bytes remain, consuming exactly them; otherwise the end-of-input I/O error |
| Serialization.DecodeInt | wayk_proto/src/serialization.rs:171-239 | ok exactly when `width` bytes remain; the value lies in the signed range |
| Serialization.UIntRoundTrip | wayk_proto/src/serialization.rs:81-159 | an encoded unsigned integer decodes back, leaving what follows |
| Serialization.IntRoundTrip | wayk_proto/src/serialization.rs:161-239 | an encoded signed integer decodes back, leaving what follows |
| Serialization.UIntEncodingOfDecoded | wayk_proto/src/serialization.rs:81-159 | every `width` bytes are the encoding of what they decode to |
| Serialization.EncodeU32x4 | wayk_proto/src/serialization.rs:241-252 | `[u32; 4]` encodes to 16 bytes |
| Serialization.DecodeU32x4 | wayk_proto/src/serialization.rs:254-263 | ok exactly when 16 bytes remain; four values |
| Serialization.U32x4RoundTrip | wayk_proto/src/serialization.rs:241-263 | four words encode and decode back, leaving what follows |
| Serialization.U32x4Zero | wayk_proto/src/serialization.rs:241-252 | four zeros encode as sixteen zero bytes |
| Serialization.EncodeRaw | wayk_proto/src/serialization.rs:265-274 | a byte slice encodes to itself, with no length prefix |
| Flags.With | wayk_proto/src/macros.rs:55-58 | the word a flags field holds after `set_x`; a nonzero mask then tests set |
| Flags.SetThenTest | wayk_proto/src/macros.rs:49-63 | after `set_x` the flag tests set, after `unset_x` it tests clear |
| Flags.DisjointFlagsUnaffected | wayk_proto/src/macros.rs:49-63 | setting or clearing one mask leaves the answer for every mask sharing no bit with it unchanged |
| Flags.UnsetThenSet | wayk_proto/src/macros.rs:55-63 | clearing then setting a mask wholly present gives the original word back |
| Flags.HasSubmask | wayk_proto/src/macros.rs:49-52 | the query asks for any bit of the mask: a word having a sub-mask has every mask containing it |
| Flags.HasLowBit | wayk_proto/src/macros.rs:49-52 | the lowest flag is set exactly in the odd words |
| Flags.HasSecondBit | wayk_proto/src/macros.rs:49-52 | the second flag is set exactly when bit 1 of the word is |
| Flags.HasLowTwoBits | wayk_proto/src/macros.rs:49-52 | a two-bit mask tests set exactly when either bit does |
| Flags.EmptyWith | wayk_proto/src/macros.rs:35-37 | `new_empty()` then `set_x` holds exactly the mask |
| Flags.EmptyHasNothing | wayk_proto/src/macros.rs:35-37 | the empty word has no flag set |
| Flags.WithKeepsWidth | wayk_proto/src/macros.rs:55-58 | setting a mask that fits a one- or two-byte field keeps the field within its width |
| Flags.HasByteTopBit | wayk_proto/src/macros.rs:49-52 | the top bit of a byte tests set exactly in the bytes from 0x80 up |
| Flags.FlagsWord.NewEmpty | wayk_proto/src/macros.rs:35-37 | a word of the given width holding zero |
| Flags.FlagsWord.FromValue | wayk_proto/src/macros.rs:16-20 | a word holding the given value, which fits its width |
| Flags.FlagsWord.SetFlag | wayk_proto/src/macros.rs:55-58 | the word becomes the bitwise OR of its value and the mask, stays within its width, the mask then tests set, and the copy returned is the new word |
| Flags.FlagsWord.UnsetFlag | wayk_proto/src/macros.rs:60-63 | the word becomes `value & !mask`, the mask then tests clear, and the copy returned is the new word |
| Containers.DecodeCount | wayk_proto/src/container.rs:110-115 | the count is read exactly when its width of bytes remains; a short read is a decoding error "couldn't decode list count" with the I/O error as source |
| Containers.DecodeVec | wayk_proto/src/container.rs:106-128 | a decoded list holds exactly as many items as its count says, and the count was present |
| Containers.DecodeItems | wayk_proto/src/container.rs:110-127 | the items from a given index up to the count: a success holds exactly that many items |
| Containers.EncodeItems | wayk_proto/src/container.rs:85-104 | the items encode exactly when every item does |
| Containers.EncodeItemsCons | wayk_proto/src/container.rs:95-101 | items are written in order: one more item in front puts its encoding in front |
| Containers.EncodeVec | wayk_proto/src/container.rs:85-104 | a list longer than its count type can hold is an error; otherwise it encodes exactly when every item does, starting with its count in little-endian |
| Containers.OneItemVec | wayk_proto/src/container.rs:241-245 | a one-item list is the count 1 followed by the item |
| Containers.ItemsRoundTrip | wayk_proto/src/container.rs:95-128 | items read back with an item codec that reads back each item give the same items and leave what follows |
| Containers.VecRoundTrip | wayk_proto/src/container.rs:68-128 | decoding a list's encoding gives the same items and leaves whatever follows unread |
| Containers.VecYields | wayk_proto/src/container.rs:106-128 | a list decoded with an item decoder whose every value satisfies a property holds only such items |
| Containers.DecodeVecFrom | wayk_proto/src/container.rs:110-127 | the decode loop, pushing one item at a time while the cursor advances, returns exactly what `DecodeVec` specifies |
| Containers.EncodeBytes | wayk_proto/src/container.rs:179-196 | the run encodes exactly when its length fits the count; the count in little-endian then the bytes; otherwise an encoding error from the integer conversion |
| Containers.DecodeBytesAsWritten | wayk_proto/src/container.rs:199-231 | as written: a successful read leaves the cursor just after the count |
| Containers.DecodeBytes | wayk_proto/src/container.rs:199-231 | corrected: ok exactly when the count and that many bytes are present; the payload is those bytes and the rest follows them |
| Containers.BytesDecodersAgree | wayk_proto/src/container.rs:199-231 | the written and the corrected decoders succeed and fail together, with the same errors and the same payload |
| Containers.BytesRoundTrip | wayk_proto/src/container.rs:167-231 | the corrected decoder reads back an encoded run and leaves what follows |
| Containers.BytesAsWrittenRereadsPayload | wayk_proto/src/container.rs:221-230 | as written, decoding an encoded run returns the payload but leaves the payload itself in front of what follows |
| Containers.ByteVecIsBytes | wayk_proto/src/container.rs:68-104 | a `VecN<u8>` and a `BytesN` of the same bytes have the same wire form and fail to encode together |
| Containers.BytesAsWrittenMisplacesNextField | wayk_proto/src/container.rs:221-230 | a `Bytes8` then a `u8`: as written the next field reads 0xAA from the payload instead of 7 |
| NowStrings.EncodedLen | wayk_proto/src/message/common/now_string.rs:92-94 | the size is the length field, the bytes and one terminator |
| NowStrings.DecodeBody | wayk_proto/src/message/common/now_string.rs:59-84 | after the length: exactly `len` bytes that are UTF-8, then one more byte consumed |
| NowStrings.Decode | wayk_proto/src/message/common/now_string.rs:47-85 | a decode always consumes more than the length field |
| NowStrings.DecodeMeaning | wayk_proto/src/message/common/now_string.rs:47-85 | a decoded string's declared length is within the size, the string is the bytes after the length and is UTF-8, one terminator byte is consumed; a length over the size is refused as too long |
| NowStrings.TryFromAsWritten | wayk_proto/src/message/common/now_string.rs:185-207 | as written: accepts exactly the strings within the declared size, unchanged |
| NowStrings.NowString256AcceptsUnencodable | wayk_proto/src/message/common/now_string.rs:96-104 | `NowString256` accepts a 256-byte string whose length its `u8` field cannot encode, and encoding it panics |
| NowStrings.Limit | wayk_proto/src/message/common/now_string.rs:16-34 | the limit is within the declared size and what the length field can hold, and is the size whenever the field can hold it |
| NowStrings.TryFrom | wayk_proto/src/message/common/now_string.rs:185-218 | corrected: accepts exactly the strings within the limit, unchanged |
| NowStrings.AcceptedStringsEncode | wayk_proto/src/message/common/now_string.rs:96-104 | every string the corrected `try_from` accepts encodes without panicking |
| NowStrings.Encode | wayk_proto/src/message/common/now_string.rs:96-104 | the length field, the bytes, then a zero terminator |
| NowStrings.EncodeAsWritten | wayk_proto/src/message/common/now_string.rs:96-104 | as written: panics exactly when the string is longer than its length field can state, and otherwise writes the corrected encoding |
| NowStrings.WriteChecked | wayk_proto/src/message/common/now_string.rs:154-171 | a string over the limit is an encoding error; otherwise the same bytes as `encode_into` |
| NowStrings.TerminatorNotChecked | wayk_proto/src/message/common/now_string.rs:74-84 | any byte in the terminator's place is consumed without check |
| NowStrings.RoundTrip | wayk_proto/src/message/common/now_string.rs:47-104 | decoding a valid string's encoding gives it back and leaves what follows the terminator |
| NowStrings.ChineseVectors | wayk_proto/src/message/common/now_string.rs:246-309 | the `NowString64` and `NowString65535` vectors of the source's tests decode and encode as listed |
| NowStrings.ShortVector | wayk_proto/src/message/common/now_string.rs:254-262 | a declared length of 8 over 7 bytes is refused as too short |
| NowStrings.TooBigVector | wayk_proto/src/message/common/now_string.rs:264-274 | a declared length of 65 is refused as too long for `NowString64` |
| Derived.InField | wayk_proto_derive/src/lib.rs:282-298 | a failing field of a derived struct gets the struct's decoding kind and "couldn't decode <type> into <struct>::<field>", the field's error as source; a success passes through |
| Derived.OutField | wayk_proto_derive/src/lib.rs:116-122 | a failing field's encoding gets the struct's encoding kind and "couldn't encode <struct>::<field>", the field's error as source |
| Derived.U16 | wayk_proto/src/serialization.rs:97-112 | two bytes whose little-endian value is the number |
| Derived.U32 | wayk_proto/src/serialization.rs:113-128 | four bytes whose little-endian value is the number |
| Derived.U64 | wayk_proto/src/serialization.rs:129-144 | eight bytes whose little-endian value is the number |
| Derived.I16 | wayk_proto/src/serialization.rs:177-192 | two bytes holding the two's complement of the number |
| Derived.UIntField | wayk_proto_derive/src/lib.rs:282-298 | an integer field reads exactly when its width remains, within its range, leaving the bytes after it; otherwise an error of the struct's decoding kind |
| Derived.FlagsField | wayk_proto_derive/src/lib.rs:282-298 | a flags field reads like its integer; its failure carries the flags type's own decoding error as source |
| Derived.FieldsReadEncodings | wayk_proto/src/serialization.rs:81-159 | an integer or flags field read from bytes re-encodes to those same bytes |
| Derived.UIntRoundTrip | wayk_proto/src/serialization.rs:81-159 | an integer or flags field of any width reads back its own encoding and leaves what follows |
| Derived.U8RoundTrip | wayk_proto/src/serialization.rs:81-96 | a `u8` or one-byte flags field reads back its byte |
| Derived.U16RoundTrip | wayk_proto/src/serialization.rs:97-112 | a `u16` or two-byte flags field reads back its encoding |
| Derived.U32RoundTrip | wayk_proto/src/serialization.rs:113-128 | a `u32` or four-byte flags field reads back its encoding |
| Derived.U64RoundTrip | wayk_proto/src/serialization.rs:129-144 | a `u64` field reads back its encoding |
| Derived.I16RoundTrip | wayk_proto/src/serialization.rs:177-192 | an `i16` field reads back its encoding |
| Derived.ListedByte | wayk_proto/src/message/virtual_channels/chat.rs:6-16 | a one-byte value enum without fallback: a value exactly when a byte is present and listed; an unlisted byte is refused with the enum's decoding kind, a missing one with end of input |
| Derived.ListedByteRoundTrip | wayk_proto/src/message/virtual_channels/chat.rs:6-16 | a listed byte reads back as its variant |
| Derived.ListedWord | wayk_proto/src/message/virtual_channels/clipboard.rs:26-32 | a two-byte value enum without fallback: a value exactly when two bytes are present and listed, otherwise refused |
| Derived.ListedWordRoundTrip | wayk_proto/src/message/virtual_channels/clipboard.rs:26-32 | a listed word reads back as its variant |
| Derived.Subtype | wayk_proto_derive/src/lib.rs:342-345 | the meta enum's subtype is read exactly when its width remains; otherwise "couldn't decode subtype" with end of input as source |
| Derived.MetaSubtype | wayk_proto_derive/src/lib.rs:342-344 | a failing subtype read gets the meta enum's decoding kind and "couldn't decode subtype" |
| Derived.InVariant | wayk_proto_derive/src/lib.rs:349-358 | a failing variant gets the meta enum's decoding kind and "couldn't decode <variant> for subtype", its error as source |
| Derived.Unlisted | wayk_proto_derive/src/lib.rs:347-364 | a subtype with no variant and no fallback is refused with the meta enum's decoding kind |
| Derived.OutVariant | wayk_proto_derive/src/lib.rs:157-170 | a failing variant's encoding gets the meta enum's encoding kind and "couldn't encode <variant> message" |
| Derived.Rest | wayk_proto_derive/src/lib.rs:359-363 | the fallback variant takes the whole unread buffer and leaves the cursor where it was |
| Header.ChannelFlagIsLowBit | wayk_proto/src/header.rs:8 | the virtual-channel flag is the header flags' lowest bit |
| Header.ChannelBit | wayk_proto/src/header.rs:212-221 | the flag bits a header of a body type carries: the channel flag exactly for a virtual channel |
| Header.NewShort | wayk_proto/src/header.rs:212-221 | a short header keeps the body type and length, sets the short bit 0x80, and the channel flag exactly for a virtual channel |
| Header.NewLongAsWritten | wayk_proto/src/header.rs:287-297 | as written: the length is masked with 0x7FFF, so it is below 0x8000 and equals the size only when the size is below 0x8000 |
| Header.NewLong | wayk_proto/src/header.rs:287-297 | corrected: the long header keeps the whole body size and the body type, with the channel flag exactly for a virtual channel |
| Header.NewAsWritten | wayk_proto/src/header.rs:49-55 | as written: a long header exactly for bodies over 0xFFFF bytes |
| Header.New | wayk_proto/src/header.rs:49-55 | a long header exactly for bodies over 0xFFFF bytes, built with the corrected long constructor |
| Header.FlagsOf | wayk_proto/src/header.rs:154-158 | the flags a header reports never include the short bit |
| Header.PacketLen | wayk_proto/src/header.rs:175-178 | the packet is the body plus the header |
| Header.EncodeShort | wayk_proto/src/header.rs:184-190 | four bytes: length, body type, flags |
| Header.EncodeLong | wayk_proto/src/header.rs:258-264 | six bytes: length, flags, body type |
| Header.Encode | wayk_proto/src/header.rs:33-46 | the encoding is as long as the header's form says |
| Header.ReadFail | wayk_proto/src/header.rs:65-84 | a short read is a `NowHeader` decoding error with the description given and the read error as source |
| Header.BodyTypeFrom | wayk_proto/src/header.rs:196-200 | the body byte names a virtual channel exactly when the channel flag is set, and re-encodes to the byte read |
| Header.DecodeShort | wayk_proto/src/header.rs:191-207 | the short header's flags and body type are the fourth and third bytes |
| Header.DecodeLong | wayk_proto/src/header.rs:266-283 | the long header's flags and body type are the fifth and sixth bytes |
| Header.Decode | wayk_proto/src/header.rs:65-94 | ok exactly when four bytes are present and, if the fourth is at most 7, six; the header is short exactly when the fourth byte is above 7, it re-encodes to the bytes it consumed, and the rest follows it |
| Header.BodyTypeFromEncoding | wayk_proto/src/header.rs:196-200 | a body type with consistent flags reads back from its byte |
| Header.ShortRoundTrip | wayk_proto/src/header.rs:184-221 | a short header with its short bit reads back |
| Header.LongRoundTrip | wayk_proto/src/header.rs:258-297 | a long header whose length's top byte is at most 7 reads back |
| Header.RoundTrip | wayk_proto/src/header.rs:20-94 | every decodable header reads back and leaves what follows |
| Header.HugeLongReadAsShort | wayk_proto/src/header.rs:73 | a long header whose length reaches 0x0800_0000 is read back as a short one |
| Header.NewRoundTrip | wayk_proto/src/header.rs:49-55 | a header built for a body type and length reports them, reports only the channel flag, and reads back |
| Header.AsWrittenAgreesUpTo16Bits | wayk_proto/src/header.rs:49-55 | for bodies up to 0xFFFF bytes the written and the corrected constructors agree |
| Header.AsWrittenLosesLongLength | wayk_proto/src/header.rs:287-297 | as written, every body over 0xFFFF bytes gets a wrong length below 0x8000 in its header; the corrected header keeps it |
| Header.AsWrittenAnnouncesEmptyBody | wayk_proto/src/header.rs:287-297 | as written, a 65536-byte update body is announced as empty |
| Header.ShortHeaderVector | wayk_proto/src/header.rs:340-368 | the short handshake header of the source's tests encodes and decodes as listed |
| Header.LongHeaderVector | wayk_proto/src/header.rs:370-406 | the long update header of the source's tests encodes and decodes as listed |
| Header.ChannelHeaderVector | wayk_proto/src/header.rs:408-423 | the virtual-channel header of the source's tests encodes and decodes as listed |
| Packets.DecodeRaw | wayk_proto/src/packet.rs:25-33 | a raw packet is a decoded header and the rest of the bytes as its payload, failing exactly when the header does |
| Packets.RawRoundTrip | wayk_proto/src/packet.rs:25-33 | a decodable header followed by a payload reads back as that raw packet |
| Packets.Encode | wayk_proto/src/packet.rs:45-54 | any packet whose message satisfies the string types of its fields: it encodes exactly when its body does, and the encoding is the header's bytes followed by the body's |
| Packets.FromMessage | wayk_proto/src/packet.rs:57-93 | corrected: the packet of a message carries it, with a header for the message's type, its encoded length and no channel flag |
| Packets.FromVirtChannel | wayk_proto/src/packet.rs:95-103 | corrected: the packet of a channel message carries it, with a header for the channel id, the channel flag and the encoded length |
| Packets.DecodeFrom | wayk_proto/src/packet.rs:122-141 | the body is a message exactly when the header says so; a channel id without a name in the table is an error |
| Packets.ReadFrom | wayk_proto/src/packet.rs:105-120 | a header that does not read is the error returned |
| Packets.ReadFromTakesBody | wayk_proto/src/packet.rs:105-120 | after the header, exactly its body length is read and decoded |
| Packets.NextFrame | wayk_proto/src/packet.rs:186-208 | nothing until six bytes are buffered past the cursor; then a header error, or a frame exactly when the whole packet is buffered, the cursor moving past exactly that packet |
| Packets.NextFindsPacket | wayk_proto/src/packet.rs:186-208 | a whole packet in the buffer is found at the cursor and the cursor moves past it |
| Packets.NextWaitsForBody | wayk_proto/src/packet.rs:196-207 | a packet whose body is not all buffered yields nothing and keeps the cursor |
| Packets.ShortPacketWaits | wayk_proto/src/packet.rs:187-189 | a whole short packet of fewer than six bytes is not returned until more bytes arrive |
| Packets.MessagePacketBytes | wayk_proto/src/packet.rs:57-93 | corrected: a message's packet has a decodable header announcing the body's length |
| Packets.MessageBodyReadsBack | wayk_proto/src/packet.rs:122-141 | the body of a message's packet decodes back to the message |
| Packets.MessagePacketReadsBack | wayk_proto/src/packet.rs:57-208 | corrected: a message's packet in the accumulator's buffer is found and decodes back to the message |
| Packets.ChannelPacketBytes | wayk_proto/src/packet.rs:95-103 | corrected: a channel message's packet has a decodable header announcing the body's length |
| Packets.ChannelBodyReadsBack | wayk_proto/src/packet.rs:122-141 | the body of a channel packet decodes back to the message when the id names its channel |
| Packets.ChannelPacketReadsBack | wayk_proto/src/packet.rs:95-208 | corrected: a channel message's packet in the accumulator's buffer is found and decodes back to the message |
| Packets.NegotiatePacketFrames | wayk_proto/src/packet.rs:231-269 | the negotiate packet of the source's test: not found from six bytes, found whole, nothing after it |
| Packets.NegotiatePacketBody | wayk_proto/src/packet.rs:231-269 | the negotiate packet's body decodes to the negotiate message of the test |
| Packets.NegotiatePacketTest | wayk_proto/src/packet.rs:231-269 | the accumulator fed the test's bytes in two parts returns nothing, then the negotiate packet, then nothing |
| Packets.NowPacketAccumulator.constructor | wayk_proto/src/packet.rs:162-175 | an empty buffer and the cursor at 0 |
| Packets.NowPacketAccumulator.Accumulate | wayk_proto/src/packet.rs:177-179 | the bytes are appended; the cursor stays |
| Packets.NowPacketAccumulator.PurgeOldPackets | wayk_proto/src/packet.rs:181-184 | the bytes before the cursor are dropped and the cursor goes to 0 |
| Packets.NowPacketAccumulator.NextPacket | wayk_proto/src/packet.rs:186-208 | the buffer is kept, the cursor moves and the packet is returned as `NextFrame` specifies, decoded with the channel table |
| Messages.GetTypeAsWritten | wayk_proto/src/message/mod.rs:489-508 | as written: the type reported for every message but an access message is the corrected one |
| Messages.GetType | wayk_proto/src/message/mod.rs:489-508 | corrected: every message but a custom one reports a type the decoder dispatches on |
| Messages.GetName | wayk_proto/src/message/mod.rs:245-251 | a clipboard or chat message names its fixed channel; a custom message names the channel it carries |
| Messages.Decode | wayk_proto/src/message/mod.rs:466-487 | a type with no decoder of its own gives a custom message holding the rest of the buffer |
| Messages.DecodeHandshakeMsg | wayk_proto/src/message/mod.rs:466-487 | a decoded handshake body is a handshake message |
| Messages.DecodeNegotiateMsg | wayk_proto/src/message/mod.rs:466-487 | a decoded negotiate body is a negotiate message |
| Messages.DecodeAuthenticateMsg | wayk_proto/src/message/mod.rs:466-487 | a decoded authenticate body is an authenticate message |
| Messages.DecodeAssociateMsg | wayk_proto/src/message/mod.rs:466-487 | a decoded associate body is an associate message |
| Messages.DecodeCapabilitiesMsg | wayk_proto/src/message/mod.rs:466-487 | a decoded capabilities body is a capabilities message |
| Messages.DecodeChannelMsg | wayk_proto/src/message/mod.rs:466-487 | a decoded channel body is a channel message |
| Messages.DecodeActivateMsg | wayk_proto/src/message/mod.rs:466-487 | a decoded activate body is an activate message |
| Messages.DecodeTerminateMsg | wayk_proto/src/message/mod.rs:466-487 | a decoded terminate body is a terminate message |
| Messages.DecodeSurfaceMsg | wayk_proto/src/message/mod.rs:466-487 | a decoded surface body is a surface message |
| Messages.DecodeUpdateMsg | wayk_proto/src/message/mod.rs:466-487 | a decoded update body is an update message |
| Messages.DecodeSystemMsg | wayk_proto/src/message/mod.rs:466-487 | a decoded system body is a system message |
| Messages.DecodeInputMsg | wayk_proto/src/message/mod.rs:466-487 | a decoded input body is an input message |
| Messages.DecodeSharingMsg | wayk_proto/src/message/mod.rs:466-487 | a decoded sharing body is a sharing message |
| Messages.DecodeAccessMsg | wayk_proto/src/message/mod.rs:466-487 | a decoded access body is an access message |
| Messages.HandshakeArm | wayk_proto/src/message/mod.rs:468 | a handshake body is dispatched to the handshake decoder |
| Messages.NegotiateArm | wayk_proto/src/message/mod.rs:469 | a negotiate body is dispatched to the negotiate decoder |
| Messages.AuthenticateArm | wayk_proto/src/message/mod.rs:470 | an authenticate body is dispatched to the authenticate decoder |
| Messages.AssociateArm | wayk_proto/src/message/mod.rs:471 | an associate body is dispatched to the associate decoder |
| Messages.CapabilitiesArm | wayk_proto/src/message/mod.rs:472 | a capabilities body is dispatched to the capabilities decoder |
| Messages.ChannelArm | wayk_proto/src/message/mod.rs:473 | a channel body is dispatched to the channel decoder |
| Messages.ActivateArm | wayk_proto/src/message/mod.rs:474 | an activate body is dispatched to the activate decoder |
| Messages.TerminateArm | wayk_proto/src/message/mod.rs:475 | a terminate body is dispatched to the terminate decoder |
| Messages.InputArm | wayk_proto/src/message/mod.rs:479 | an input body is dispatched to the input decoder |
| Messages.SurfaceArm | wayk_proto/src/message/mod.rs:476 | a surface body is dispatched to the surface decoder |
| Messages.UpdateArm | wayk_proto/src/message/mod.rs:477 | an update body is dispatched to the update decoder |
| Messages.SystemArm | wayk_proto/src/message/mod.rs:478 | a system body is dispatched to the system decoder |
| Messages.SharingArm | wayk_proto/src/message/mod.rs:480 | a sharing body is dispatched to the sharing decoder |
| Messages.AccessArm | wayk_proto/src/message/mod.rs:481 | an access body is dispatched to the access decoder |
| Messages.Encode | wayk_proto/src/message/mod.rs:413-463 | defined for every message whose system and sharing strings satisfy their string types; a custom message is its payload as is; each fixed-size message has its fixed length |
| Messages.RoundTrip | wayk_proto/src/message/mod.rs:413-487 | every well-formed message, encoded then decoded on its own type, reads back and leaves what follows (a custom payload takes the rest) |
| Messages.HandshakeReadsBack | wayk_proto/src/message/mod.rs:413-487 | a well-formed handshake message reads back on its own type and leaves what follows |
| Messages.NegotiateReadsBack | wayk_proto/src/message/mod.rs:413-487 | a well-formed negotiate message reads back on its own type and leaves what follows |
| Messages.AuthenticateReadsBack | wayk_proto/src/message/mod.rs:413-487 | a well-formed authenticate message reads back on its own type and leaves what follows |
| Messages.AssociateReadsBack | wayk_proto/src/message/mod.rs:413-487 | a well-formed associate message reads back on its own type and leaves what follows |
| Messages.CapabilitiesReadsBack | wayk_proto/src/message/mod.rs:413-487 | a well-formed capabilities message reads back on its own type and leaves what follows |
| Messages.ChannelReadsBack | wayk_proto/src/message/mod.rs:413-487 | a well-formed channel message reads back on its own type and leaves what follows |
| Messages.ActivateReadsBack | wayk_proto/src/message/mod.rs:413-487 | a well-formed activate message reads back on its own type and leaves what follows |
| Messages.TerminateReadsBack | wayk_proto/src/message/mod.rs:413-487 | a well-formed terminate message reads back on its own type and leaves what follows |
| Messages.InputReadsBack | wayk_proto/src/message/mod.rs:413-487 | a well-formed input message reads back on its own type and leaves what follows |
| Messages.SurfaceReadsBack | wayk_proto/src/message/mod.rs:413-487 | a well-formed surface message reads back on its own type and leaves what follows |
| Messages.UpdateReadsBack | wayk_proto/src/message/mod.rs:413-487 | a well-formed update message reads back on its own type and leaves what follows |
| Messages.SystemReadsBack | wayk_proto/src/message/mod.rs:413-487 | a well-formed system message reads back on its own type and leaves what follows |
| Messages.SharingReadsBack | wayk_proto/src/message/mod.rs:413-487 | a well-formed sharing message reads back on its own type and leaves what follows |
| Messages.AccessReadsBack | wayk_proto/src/message/mod.rs:413-487 | a well-formed access message reads back on its own type and leaves what follows |
| Messages.AccessMislabelled | wayk_proto/src/message/mod.rs:503 | as written, `get_type` reports the Sharing type for an access message, and a body decoded under that type is never an access message |
| Messages.DecodeVirtualChannel | wayk_proto/src/message/mod.rs:234-243 | the decoded message belongs to the channel it was decoded for; any channel other than clipboard and chat keeps the rest of the buffer as a custom payload |
| Messages.EncodeCustomAsWritten | wayk_proto/src/message/mod.rs:188-194 | as written, the derived encoder writes the channel's name in front of the payload |
| Messages.CustomAsWrittenDoesNotReadBack | wayk_proto/src/message/mod.rs:188-243 | as written, a custom channel message decodes back with a payload that differs from the one sent |
| Messages.EncodeVirtualChannel | wayk_proto/src/message/mod.rs:205-231 | corrected: a custom channel message is its payload alone; chat messages always encode |
| Messages.VirtualChannelRoundTrip | wayk_proto/src/message/mod.rs:205-243 | every well-formed channel message reads back on its own channel name |
| Messages.LowestIdOf | wayk_proto/src/message/mod.rs:93-95 | the smallest id whose entry holds the name, or none when no entry does |
| Messages.VirtChannelsCtx.constructor | wayk_proto/src/message/mod.rs:78-82 | an empty table |
| Messages.VirtChannelsCtx.Insert | wayk_proto/src/message/mod.rs:85-87 | the id maps to the name afterwards, every other entry is kept, and the name it replaces is returned |
| Messages.VirtChannelsCtx.GetChannelById | wayk_proto/src/message/mod.rs:89-91 | the name of the id exactly when the id has an entry |
| Messages.VirtChannelsCtx.GetIdByChannel | wayk_proto/src/message/mod.rs:93-95 | the smallest id holding the name, or none exactly when no id holds it |
| Status.SeverityFromByte | wayk_proto/src/message/status.rs:174-186 | a byte outside the severity table is kept in the fallback variant |
| Status.SeverityTable | wayk_proto/src/message/status.rs:174-186 | every byte reads as a severity that writes back to it, and every listed severity reads back from its byte |
| Status.TypeFromByte | wayk_proto/src/message/status.rs:194-224 | a byte outside the status-type table is kept in the fallback variant |
| Status.TypeTable | wayk_proto/src/message/status.rs:194-224 | every byte reads as a status type that writes back to it, and every listed type reads back from its byte |
| Status.Build | wayk_proto/src/message/status.rs:34-46 | the status keeps the three parts it was built from, and its word is the severity shifted by 30, plus the type shifted by 16, plus the code, whenever the severity fits two bits |
| Status.TryFrom | wayk_proto/src/message/status.rs:94-104 | parsing a word never fails and keeps the word |
| Status.Encode | wayk_proto/src/message/status.rs:73-79 | a status is four bytes |
| Status.Decode | wayk_proto/src/message/status.rs:82-86 | ok exactly when four bytes remain; the parts are those of the word read, which re-encodes to the bytes consumed |
| Status.BuildThenParse | wayk_proto/src/message/status.rs:34-46 | a status built from listed parts with a two-bit severity is parsed back into the same parts |
| Status.MiddleBitsIgnored | wayk_proto/src/message/status.rs:94-104 | bits 24-29 of the word play no part in the severity, type or code parsed |
| Status.WideSeverityLost | wayk_proto/src/message/status.rs:34-46 | a severity byte of 4 is shifted out of the word: the built word is that of `Info` and no longer parses into its parts |
| Status.RoundTrip | wayk_proto/src/message/status.rs:73-86 | a status whose parts agree with its word reads back and leaves what follows |
| Status.DefaultIsZero | wayk_proto/src/message/status.rs:124-130 | the default status is the word 0, parts `Info`, no type, code 0 |
| Status.AuthFailureVector | wayk_proto/src/message/status.rs:607-639 | the source's tests: building the authentication failure gives 0x8017_ffff, which parses back to it; byte 3 is `Fatal` |
| Status.DisconnectFromU16 | wayk_proto/src/message/status.rs:234-270 | a code outside the disconnect table is kept in the fallback variant |
| Status.DisconnectTable | wayk_proto/src/message/status.rs:234-270 | every code reads as a disconnect code that writes back to it, and every listed code reads back |
| Status.HandshakeFromU16 | wayk_proto/src/message/status.rs:369-379 | a code outside the handshake table is kept in the fallback variant |
| Status.HandshakeTable | wayk_proto/src/message/status.rs:369-379 | the handshake code table reads and writes back both ways |
| Status.AuthFromU16 | wayk_proto/src/message/status.rs:416-442 | a code outside the authentication table is kept in the fallback variant |
| Status.AuthTable | wayk_proto/src/message/status.rs:416-442 | the authentication code table reads and writes back both ways |
| Status.AssociateFromU16 | wayk_proto/src/message/status.rs:465-473 | a code outside the association table is kept in the fallback variant |
| Status.AssociateTable | wayk_proto/src/message/status.rs:465-473 | the association code table reads and writes back both ways |
| Status.ExecFromU16 | wayk_proto/src/message/status.rs:575-589 | a code outside the exec table is kept in the fallback variant |
| Status.ExecTable | wayk_proto/src/message/status.rs:575-589 | the exec code table reads and writes back both ways |
| Status.ExecUnknownCode | wayk_proto/src/message/status.rs:627-631 | the code 327 reads as the exec fallback holding 327 |
| Rects.EncodeEdgeRect | wayk_proto/src/message/common/edge_rect.rs:5-15 | an edge rectangle is 8 bytes |
| Rects.DecodeEdgeRect | wayk_proto/src/message/common/edge_rect.rs:5-15 | an edge rectangle reads exactly when 8 bytes remain, leaving what follows them |
| Rects.EncodeSizeRect | wayk_proto/src/message/common/size_rect.rs:5-15 | a size rectangle is 8 bytes |
| Rects.DecodeSizeRect | wayk_proto/src/message/common/size_rect.rs:5-15 | a size rectangle reads exactly when 8 bytes remain, leaving what follows them |
| Rects.EdgeRectRoundTrip | wayk_proto/src/message/common/edge_rect.rs:5-15 | decoding an encoded edge rectangle gives it back, 8 bytes on |
| Rects.SizeRectRoundTrip | wayk_proto/src/message/common/size_rect.rs:5-15 | decoding an encoded size rectangle gives it back, 8 bytes on |
| Rects.EdgeRectVector | wayk_proto/src/message/common/edge_rect.rs:22-48 | the test vector decodes to (0, 0, 1024, 768) and encodes back |
| Rects.SizeRectVector | wayk_proto/src/message/common/size_rect.rs:22-48 | the test vector decodes to (1888, 1060, 12, 12) and encodes back |
| Activate.Encode | wayk_proto/src/message/connection_sequence/activate.rs:1-5 | the message is its four-byte flags word |
| Activate.Decode | wayk_proto/src/message/connection_sequence/activate.rs:1-5 | ok exactly when four bytes remain; the message re-encodes to them and the rest follows |
| Activate.RoundTrip | wayk_proto/src/message/connection_sequence/activate.rs:1-5 | every activate message reads back and leaves what follows |
| Activate.ActivateVector | wayk_proto/src/message/connection_sequence/activate.rs:17-30 | the source's test bytes decode to the default message and encode back |
| Terminate.New | wayk_proto/src/message/connection_sequence/terminate.rs:16-21 | a terminate message with no flag and the given status |
| Terminate.Encode | wayk_proto/src/message/connection_sequence/terminate.rs:3-7 | the message is eight bytes, flags then status |
| Terminate.Decode | wayk_proto/src/message/connection_sequence/terminate.rs:3-7 | ok exactly when eight bytes remain; the message re-encodes to them and its status's parts agree with its word |
| Terminate.RoundTrip | wayk_proto/src/message/connection_sequence/terminate.rs:3-7 | a message whose status is consistent reads back and leaves what follows |
| Terminate.TerminateVector | wayk_proto/src/message/connection_sequence/terminate.rs:30-57 | the source's test message (disconnected by the local user) encodes and decodes as listed |
| Handshake.ConfigureFailure | wayk_proto/src/message/connection_sequence/handshake.rs:40-43 | the failure flag is set and the status replaced; nothing else changes |
| Handshake.ConfigureReconnect | wayk_proto/src/message/connection_sequence/handshake.rs:45-49 | the reconnect flag is set and the cookie and session id replaced; nothing else changes |
| Handshake.Encode | wayk_proto/src/message/connection_sequence/handshake.rs:14-30 | the message is 40 bytes |
| Handshake.Decode | wayk_proto/src/message/connection_sequence/handshake.rs:14-30 | ok exactly when 40 bytes remain, consuming exactly them, with a consistent status |
| Handshake.RoundTrip | wayk_proto/src/message/connection_sequence/handshake.rs:14-30 | a message whose status is consistent reads back and leaves what follows |
| Handshake.ConfiguredMessagesTravel | wayk_proto/src/message/connection_sequence/handshake.rs:40-49 | a message configured for failure or for reconnection reads back with its flag, status, cookie and session id |
| Handshake.DefaultFields | wayk_proto/src/message/connection_sequence/handshake.rs:32-38 | the default message is version 21.1.0, no flag, a zero status |
| Handshake.SuccessVector | wayk_proto/src/message/connection_sequence/handshake.rs:76-113 | the source's success bytes decode to the default message, which encodes back to them and has no failure flag |
| Negotiate.NewWithAuthList | wayk_proto/src/message/connection_sequence/negotiate.rs:31-33 | a message with the given flags and methods |
| Negotiate.New | wayk_proto/src/message/connection_sequence/negotiate.rs:27-29 | a message with the given flags and no method |
| Negotiate.DefaultIsSrpExtended | wayk_proto/src/message/connection_sequence/negotiate.rs:18-22 | the default message asks for extended SRP and offers no method |
| Negotiate.AuthBytes | wayk_proto/src/message/connection_sequence/negotiate.rs:12-16 | each method is one byte, in order |
| Negotiate.Encode | wayk_proto/src/message/connection_sequence/negotiate.rs:12-16 | encodes exactly when at most 255 methods are offered: flags, count, then one byte per method |
| Negotiate.Decode | wayk_proto/src/message/connection_sequence/negotiate.rs:12-16 | a decoded message has as many methods as its count byte says |
| Negotiate.RoundTrip | wayk_proto/src/message/connection_sequence/negotiate.rs:12-16 | every encodable message reads back and leaves what follows |
| Negotiate.NegotiateVector | wayk_proto/src/message/connection_sequence/negotiate.rs:45-73 | the source's test message (PFP, SRP, SRD, NTLM) encodes and decodes as listed |
| Exec.FromByte | wayk_proto/src/message/virtual_channels/exec.rs:1-10 | 0x00 is the capabilities request, any other byte the fallback holding it |
| Exec.ByteRoundTrip | wayk_proto/src/message/virtual_channels/exec.rs:1-10 | every byte reads as a type that writes back to it |
| Exec.TypeRoundTrip | wayk_proto/src/message/virtual_channels/exec.rs:1-10 | every listed type reads back from its byte |
| Exec.Encode | wayk_proto/src/message/virtual_channels/exec.rs:1-10 | a type is written as the single byte it stands for |
| Exec.Decode | wayk_proto/src/message/virtual_channels/exec.rs:1-10 | ok exactly when a byte remains; the type of that byte, the rest after it |
| Exec.RoundTrip | wayk_proto/src/message/virtual_channels/exec.rs:1-10 | every listed type reads back and leaves what follows |
| FileTransfer.FromByte | wayk_proto/src/message/virtual_channels/file_transfer.rs:1-10 | 0x00 is the capabilities request, any other byte the fallback holding it |
| FileTransfer.ByteRoundTrip | wayk_proto/src/message/virtual_channels/file_transfer.rs:1-10 | every byte reads as a type that writes back to it |
| FileTransfer.TypeRoundTrip | wayk_proto/src/message/virtual_channels/file_transfer.rs:1-10 | every listed type reads back from its byte |
| FileTransfer.Encode | wayk_proto/src/message/virtual_channels/file_transfer.rs:1-10 | a type is written as the single byte it stands for |
| FileTransfer.Decode | wayk_proto/src/message/virtual_channels/file_transfer.rs:1-10 | ok exactly when a byte remains; the type of that byte, the rest after it |
| FileTransfer.RoundTrip | wayk_proto/src/message/virtual_channels/file_transfer.rs:1-10 | every listed type reads back and leaves what follows |
| Mouse.MessageTypeFromByte | wayk_proto/src/message/now_messages/mouse.rs:3-15 | bytes 1 to 4 are the listed subtypes, any other the fallback holding it |
| Mouse.MessageTypeTable | wayk_proto/src/message/now_messages/mouse.rs:3-15 | the subtype table reads and writes back both ways |
| Mouse.CursorTypeFromByte | wayk_proto/src/message/now_messages/mouse.rs:29-39 | bytes 0 to 2 are the listed cursor types, any other the fallback |
| Mouse.CursorTypeTable | wayk_proto/src/message/now_messages/mouse.rs:29-39 | the cursor type table reads and writes back both ways |
| Mouse.ModeFromByte | wayk_proto/src/message/now_messages/mouse.rs:41-51 | bytes 1 to 3 are the listed modes, any other the fallback |
| Mouse.StateFromByte | wayk_proto/src/message/now_messages/mouse.rs:53-63 | bytes 1 to 3 are the listed states, any other the fallback |
| Mouse.ModeTable | wayk_proto/src/message/now_messages/mouse.rs:41-51 | the mode table reads and writes back both ways |
| Mouse.StateTable | wayk_proto/src/message/now_messages/mouse.rs:53-63 | the state table reads and writes back both ways |
| Mouse.ModeAndStateShareValues | wayk_proto/src/message/now_messages/mouse.rs:41-63 | a mode and a state read from the same byte correspond and write back to it |
| Mouse.SameAndLargeAreLowBit | wayk_proto/src/message/now_messages/mouse.rs:17-27 | both one-bit flag words use bit 0 |
| Layout.Encode | wayk_proto_derive/src/lib.rs:110-125 | a fixed layout is as long as the sum of its field widths |
| Layout.ReadField | wayk_proto_derive/src/lib.rs:282-298 | a field reads exactly when its width remains, within its range; otherwise an error of the struct's decoding kind |
| Layout.Decode | wayk_proto_derive/src/lib.rs:282-298 | ok exactly when the layout's size remains; the values fit their fields, re-encode to the bytes consumed, and the rest follows |
| Layout.RoundTrip | wayk_proto_derive/src/lib.rs:110-298 | the values of every layout read back and leave what follows |
| Layout.Str | wayk_proto/src/message/common/now_string.rs:96-104 | a string field is its bytes, the terminator and the length field |
| Layout.StrField | wayk_proto/src/message/common/now_string.rs:47-85 | a decoded string field is a valid string of its kind, and consumes bytes |
| Layout.StrRoundTrip | wayk_proto/src/message/common/now_string.rs:47-104 | a valid string field reads back and leaves what follows |
| Layout.EncodeWithVec | wayk_proto_derive/src/lib.rs:110-125 | a layout followed by a list encodes exactly when the list does |
| Layout.DecodeWithVec | wayk_proto_derive/src/lib.rs:282-298 | a layout followed by a list: both present, the layout's values fit and re-encode to its bytes |
| Layout.WithVecRoundTrip | wayk_proto_derive/src/lib.rs:110-298 | a layout followed by a list reads back when the list's items do |
| Layout.WithVecYields | wayk_proto_derive/src/lib.rs:282-298 | every list item decoded after the layout satisfies what the item decoder guarantees |
| Associate.SubtypeFromByte | wayk_proto/src/message/connection_sequence/associate.rs:5-15 | bytes 1 to 3 are the listed subtypes, any other the fallback holding it |
| Associate.SubtypeTable | wayk_proto/src/message/connection_sequence/associate.rs:5-15 | the subtype table reads and writes back both ways |
| Associate.NewInfo | wayk_proto/src/message/connection_sequence/associate.rs:96-103 | an info message with the given flags and session id, reserved zero |
| Associate.NewRequest | wayk_proto/src/message/connection_sequence/associate.rs:134-141 | a request with the given flags and session id, reserved zero |
| Associate.NewResponse | wayk_proto/src/message/connection_sequence/associate.rs:172-184 | a response with the given flags, status and session id, reserved zero |
| Associate.NewResponseWithStatus | wayk_proto/src/message/connection_sequence/associate.rs:40-45 | a response message with no flag, session 0 and the given status |
| Associate.EncodeSession | wayk_proto/src/message/connection_sequence/associate.rs:75-81 | an info or request message is eight bytes, starting with its subtype |
| Associate.SubtypeField | wayk_proto/src/message/connection_sequence/associate.rs:75-81 | the subtype field reads exactly when a byte remains, through the subtype table |
| Associate.DecodeSession | wayk_proto/src/message/connection_sequence/associate.rs:75-119 | ok exactly when eight bytes remain; the subtype is listed and the rest follows |
| Associate.SessionReadsEncoding | wayk_proto/src/message/connection_sequence/associate.rs:75-119 | a decoded info or request message re-encodes to the eight bytes read |
| Associate.SessionRoundTrip | wayk_proto/src/message/connection_sequence/associate.rs:75-119 | an info or request message with a listed subtype reads back |
| Associate.EncodeResponse | wayk_proto/src/message/connection_sequence/associate.rs:150-157 | a response is twelve bytes, starting with its subtype |
| Associate.DecodeResponse | wayk_proto/src/message/connection_sequence/associate.rs:150-157 | ok exactly when twelve bytes remain; the subtype is listed and the status consistent |
| Associate.ResponseReadsEncoding | wayk_proto/src/message/connection_sequence/associate.rs:150-157 | a decoded response re-encodes to the twelve bytes read |
| Associate.ResponseRoundTrip | wayk_proto/src/message/connection_sequence/associate.rs:150-157 | a response with a listed subtype and consistent status reads back |
| Associate.Encode | wayk_proto/src/message/connection_sequence/associate.rs:18-25 | a custom message is its payload; every other message at least eight bytes |
| Associate.Decode | wayk_proto/src/message/connection_sequence/associate.rs:18-25 | a subtype byte outside 1 to 3 gives the custom variant holding the whole buffer with nothing consumed |
| Associate.DecodedIsWellFormed | wayk_proto/src/message/connection_sequence/associate.rs:18-25 | every decoded message is well formed |
| Associate.RoundTrip | wayk_proto/src/message/connection_sequence/associate.rs:18-25 | a well-formed message reads back; a custom one returns its payload as the unread rest |
| Associate.DecodesOwnEncoding | wayk_proto/src/message/connection_sequence/associate.rs:18-25 | a well-formed info, request or response decodes from its own bytes alone |
| Associate.InfoVector | wayk_proto/src/message/connection_sequence/associate.rs:205-220 | the source's info bytes encode and decode as listed |
| Associate.RequestVector | wayk_proto/src/message/connection_sequence/associate.rs:222-237 | the source's request bytes encode and decode as listed |
| Associate.ResponseVector | wayk_proto/src/message/connection_sequence/associate.rs:239-255 | the source's response bytes encode and decode as listed |
| Associate.InfoDecoderKeepsForeignSubtype | wayk_proto/src/message/connection_sequence/associate.rs:192-203 | the info struct's decoder accepts request bytes and keeps their subtype: the subtype is not checked by the struct |
| Authenticate.SrpFromByte | wayk_proto/src/message/connection_sequence/authenticate.rs:9-16 | bytes 1 to 4 are the SRP subtypes and no other byte |
| Authenticate.SrpTable | wayk_proto/src/message/connection_sequence/authenticate.rs:9-16 | a byte names an SRP subtype exactly when it is that subtype's byte |
| Authenticate.MessageTypeFromByte | wayk_proto/src/message/connection_sequence/authenticate.rs:18-24 | bytes 1 to 3 are the message subtypes and no other byte |
| Authenticate.MessageTypeTable | wayk_proto/src/message/connection_sequence/authenticate.rs:18-24 | a byte names a subtype exactly when it is that subtype's byte |
| Authenticate.AuthTypeFromByte | wayk_proto/src/message/connection_sequence/authenticate.rs:26-38 | bytes 0 to 8 are the authentication methods and no other byte |
| Authenticate.AuthTypeTable | wayk_proto/src/message/connection_sequence/authenticate.rs:26-38 | a byte names a method exactly when it is that method's byte |
| Authenticate.DecodeMessageType | wayk_proto/src/message/connection_sequence/authenticate.rs:18-24 | a subtype reads exactly when a listed byte is present, and writes back to it |
| Authenticate.DecodeAuthType | wayk_proto/src/message/connection_sequence/authenticate.rs:26-38 | a method reads exactly when a listed byte is present, and writes back to it |
| Authenticate.EncodeAuthType | wayk_proto/src/message/connection_sequence/authenticate.rs:26-38 | a method is its one byte |
| Authenticate.MessageTypeRoundTrip | wayk_proto/src/message/connection_sequence/authenticate.rs:18-24 | every subtype reads back |
| Authenticate.AuthTypeRoundTrip | wayk_proto/src/message/connection_sequence/authenticate.rs:26-38 | every method reads back |
| Authenticate.AuthTypeInverse | wayk_proto/src/message/connection_sequence/authenticate.rs:26-38 | the method codec reads back every list of methods |
| Authenticate.NewToken | wayk_proto/src/message/connection_sequence/authenticate.rs:98-106 | a token message with no flag, the given method and data |
| Authenticate.NewSuccess | wayk_proto/src/message/connection_sequence/authenticate.rs:145-153 | a success message with no flag, the given session id and cookie |
| Authenticate.NewFailure | wayk_proto/src/message/connection_sequence/authenticate.rs:174-181 | a failure message with the given flags and status |
| Authenticate.EncodeToken | wayk_proto/src/message/connection_sequence/authenticate.rs:85-92 | a token encodes exactly when its data fits a `u16` length: six bytes then the data |
| Authenticate.OwnedTokenSameWire | wayk_proto/src/message/connection_sequence/authenticate.rs:109-116 | the owned token has the same wire form as the borrowed one |
| Authenticate.DecodeToken | wayk_proto/src/message/connection_sequence/authenticate.rs:85-92 | corrected: a decoded token consumed its six header bytes and its data |
| Authenticate.TokenRoundTrip | wayk_proto/src/message/connection_sequence/authenticate.rs:85-92 | corrected: every encodable token reads back |
| Authenticate.EncodeSuccess | wayk_proto/src/message/connection_sequence/authenticate.rs:132-139 | a success message is 24 bytes starting with its subtype |
| Authenticate.DecodeSuccess | wayk_proto/src/message/connection_sequence/authenticate.rs:132-139 | a decoded success message consumed 24 bytes |
| Authenticate.SuccessRoundTrip | wayk_proto/src/message/connection_sequence/authenticate.rs:132-139 | every success message reads back |
| Authenticate.EncodeFailure | wayk_proto/src/message/connection_sequence/authenticate.rs:162-168 | a failure message is eight bytes starting with its subtype |
| Authenticate.DecodeFailure | wayk_proto/src/message/connection_sequence/authenticate.rs:162-168 | a decoded failure message consumed eight bytes and has a consistent status |
| Authenticate.FailureRoundTrip | wayk_proto/src/message/connection_sequence/authenticate.rs:162-168 | a failure message with a consistent status reads back |
| Authenticate.Encode | wayk_proto/src/message/connection_sequence/authenticate.rs:48-57 | a message encodes exactly when its token data, if any, fits a `u16` length |
| Authenticate.Decode | wayk_proto/src/message/connection_sequence/authenticate.rs:48-57 | a decoded message starts with a listed subtype and is never the owned token |
| Authenticate.DecodedIsWellFormed | wayk_proto/src/message/connection_sequence/authenticate.rs:48-57 | every decoded message is well formed |
| Authenticate.SubtypeSelects | wayk_proto/src/message/connection_sequence/authenticate.rs:48-57 | the subtype read selects the variant whose byte it is |
| Authenticate.TokenVariantRoundTrip | wayk_proto/src/message/connection_sequence/authenticate.rs:48-92 | a token message reads back as the token variant |
| Authenticate.SuccessVariantRoundTrip | wayk_proto/src/message/connection_sequence/authenticate.rs:48-57 | a success message reads back as the success variant |
| Authenticate.FailureVariantRoundTrip | wayk_proto/src/message/connection_sequence/authenticate.rs:48-57 | a failure message reads back as the failure variant |
| Authenticate.RoundTrip | wayk_proto/src/message/connection_sequence/authenticate.rs:48-182 | every well-formed encodable message reads back (an owned token as a borrowed one) |
| Authenticate.UnknownSubtypeRefused | wayk_proto/src/message/connection_sequence/authenticate.rs:18-24 | a subtype byte of 0 or above 3 is refused: "couldn't decode subtype" over the subtype enum's decoding error |
| Authenticate.FailureVector | wayk_proto/src/message/connection_sequence/authenticate.rs:277-304 | the source's failure bytes (retry flag) encode and decode as listed |
| Authenticate.SuccessVector | wayk_proto/src/message/connection_sequence/authenticate.rs:250-276 | the source's success bytes encode and decode as listed |
| Authenticate.TokenVector | wayk_proto/src/message/connection_sequence/authenticate.rs:206-249 | a 281-byte SRP token is written and read as in the source's token test |
| Sharing.MessageTypeFromU8 | wayk_proto/src/message/now_messages/sharing.rs:4-12 | bytes 1 and 2 are the listed subtypes, any other the fallback holding it |
| Sharing.MessageTypeTable | wayk_proto/src/message/now_messages/sharing.rs:4-12 | the subtype table reads and writes back both ways |
| Sharing.NewWithMessage | wayk_proto/src/message/now_messages/sharing.rs:38-43 | a suspend message carrying the text, no flag; an empty text gives the default message |
| Sharing.EncodeHead | wayk_proto/src/message/now_messages/sharing.rs:14-20 | the common head is four bytes starting with the subtype |
| Sharing.DecodeHead | wayk_proto/src/message/now_messages/sharing.rs:14-20 | the head reads exactly when four bytes remain, re-encoding to them |
| Sharing.HeadRoundTrip | wayk_proto/src/message/now_messages/sharing.rs:14-20 | a head with a listed subtype reads back |
| Sharing.EncodeSuspend | wayk_proto/src/message/now_messages/sharing.rs:14-20 | a suspend message is its head and its `NowString256` text |
| Sharing.DecodeSuspend | wayk_proto/src/message/now_messages/sharing.rs:14-20 | a decoded suspend message has a listed subtype and a valid text |
| Sharing.SuspendRoundTrip | wayk_proto/src/message/now_messages/sharing.rs:14-20 | every valid suspend message reads back |
| Sharing.EncodeResume | wayk_proto/src/message/now_messages/sharing.rs:46-51 | a resume message is four bytes starting with its subtype |
| Sharing.DecodeResume | wayk_proto/src/message/now_messages/sharing.rs:46-51 | ok exactly when four bytes remain |
| Sharing.ResumeRoundTrip | wayk_proto/src/message/now_messages/sharing.rs:46-51 | every resume message with a listed subtype reads back |
| Sharing.Encode | wayk_proto/src/message/now_messages/sharing.rs:56-62 | every message whose suspend text fits `NowString256` encodes; a custom message is its payload as is, even empty or starting with a subtype byte; the others are at least four bytes |
| Sharing.Decode | wayk_proto/src/message/now_messages/sharing.rs:56-62 | a subtype byte other than 1 and 2 gives the custom variant holding the whole buffer; every decoded message is well formed |
| Sharing.RoundTrip | wayk_proto/src/message/now_messages/sharing.rs:56-62 | a well-formed message reads back; a custom one returns its payload as the unread rest |
| Sharing.ResumeNeverRefused | wayk_proto/src/message/now_messages/sharing.rs:46-62 | four bytes starting with 2 always decode as a resume message |
| Sharing.SuspendVector | wayk_proto/src/message/now_messages/sharing.rs:71-95 | the source's suspend bytes encode and decode as listed |
| AccessControl.MessageTypeFromU8 | wayk_proto/src/message/now_messages/access_control.rs:9-19 | bytes 1 to 3 are the listed subtypes, any other the fallback |
| AccessControl.MessageTypeTable | wayk_proto/src/message/now_messages/access_control.rs:9-19 | the subtype table reads and writes back both ways |
| AccessControl.DisabledOverlaps | wayk_proto/src/message/now_messages/access_control.rs:21-27 | `disabled` holds exactly when `denied` or `timeout` does |
| AccessControl.NewReq | wayk_proto/src/message/now_messages/access_control.rs:42-49 | a request with no flag, the given channel code and timeout |
| AccessControl.EncodeBody | wayk_proto/src/message/now_messages/access_control.rs:31-70 | each of the three messages is six bytes |
| AccessControl.DecodeBody | wayk_proto/src/message/now_messages/access_control.rs:31-70 | a body reads exactly when six bytes remain and re-encodes to them |
| AccessControl.DecodedSubtype | wayk_proto/src/message/now_messages/access_control.rs:31-70 | the decoded subtype is the first byte |
| AccessControl.BodyRoundTrip | wayk_proto/src/message/now_messages/access_control.rs:31-70 | a body with listed subtype and code reads back |
| AccessControl.Encode | wayk_proto/src/message/now_messages/access_control.rs:75-80 | every access message is six bytes |
| AccessControl.Decode | wayk_proto/src/message/now_messages/access_control.rs:75-80 | a decoded message has a subtype from 1 to 3 and consumed six bytes; any other subtype is refused with the meta enum's decoding kind |
| AccessControl.ReqReadsBack | wayk_proto/src/message/now_messages/access_control.rs:31-37 | a request reads back as the request variant |
| AccessControl.RspReadsBack | wayk_proto/src/message/now_messages/access_control.rs:54-60 | a response reads back as the response variant |
| AccessControl.NtfReadsBack | wayk_proto/src/message/now_messages/access_control.rs:64-70 | a notification reads back as the notification variant |
| AccessControl.RoundTrip | wayk_proto/src/message/now_messages/access_control.rs:75-80 | every well-formed access message reads back |
| AccessControl.ReqVector | wayk_proto/src/message/now_messages/access_control.rs:87-108 | the source's request bytes encode and decode as listed |
| AccessControl.RspVector | wayk_proto/src/message/now_messages/access_control.rs:109-123 | the source's response bytes decode to a chat timeout failure |
| AccessControl.NtfVector | wayk_proto/src/message/now_messages/access_control.rs:124-137 | the source's notification bytes decode to an allowed clipboard |
| Channel.MessageTypeFromByte | wayk_proto/src/message/connection_sequence/channel.rs:9-33 | bytes 1 to 10 are the listed subtypes, any other the fallback holding it |
| Channel.MessageTypeTable | wayk_proto/src/message/connection_sequence/channel.rs:9-33 | the subtype table reads and writes back both ways |
| Channel.SuccessReadsAsFailure | wayk_proto/src/message/connection_sequence/channel.rs:35-49 | a definition word whose `status_success` holds also reports `status_failure` |
| Channel.DynamicReadsAsFailure | wayk_proto/src/message/connection_sequence/channel.rs:35-49 | a dynamic channel reports `status_failure` whatever its status bit |
| Channel.NameLen | wayk_proto/src/message/connection_sequence/channel.rs:77-89 | a name's encoded length is its string's length plus two |
| Channel.EncodeName | wayk_proto/src/message/connection_sequence/channel.rs:90-94 | a name is written exactly when its string fits `NowString64`, as that string type writes it |
| Channel.NameBytes | wayk_proto/src/message/connection_sequence/channel.rs:90-94 | a written name is its length byte, its bytes and a zero |
| Channel.DecodeName | wayk_proto/src/message/connection_sequence/channel.rs:97-108 | a decoded name consumed its length plus two bytes, spells the bytes read and is a well-known name whenever its string is one |
| Channel.NameRoundTrip | wayk_proto/src/message/connection_sequence/channel.rs:77-108 | any writable name reads back to the same string, leaving what follows unread |
| Channel.NameReadsBack | wayk_proto/src/message/connection_sequence/channel.rs:77-108 | a name that is not `Unknown` of a well-known string reads back as itself |
| Channel.WellKnownUtf8 | wayk_proto/src/message/connection_sequence/channel.rs:111-127 | the five well-known names are valid UTF-8 |
| Channel.UnknownChatReadsAsChat | wayk_proto/src/message/connection_sequence/channel.rs:97-127 | `Unknown("NowChat")` reads back as `Chat`: the codec cannot keep the two apart |
| Channel.NewDefWithFlags | wayk_proto/src/message/connection_sequence/channel.rs:62-64 | a definition of the name with the given flags |
| Channel.NewDef | wayk_proto/src/message/connection_sequence/channel.rs:58-60 | a definition of the name with no flag |
| Channel.EncodeDef | wayk_proto/src/message/connection_sequence/channel.rs:51-55 | a definition encodes exactly when its name does: the flags word then the name |
| Channel.DecodeDef | wayk_proto/src/message/connection_sequence/channel.rs:51-55 | a decoded definition consumed four bytes and its name's length |
| Channel.DecodeDefFromParts | wayk_proto/src/message/connection_sequence/channel.rs:51-55 | a flags word followed by a readable name reads as the definition of both |
| Channel.DefRoundTrip | wayk_proto/src/message/connection_sequence/channel.rs:51-108 | a well-formed definition reads back, leaving what follows unread |
| Channel.DefInverse | wayk_proto/src/message/connection_sequence/channel.rs:51-108 | the definition codec undoes itself on every list of well-formed definitions |
| Channel.New | wayk_proto/src/message/connection_sequence/channel.rs:138-144 | a message of the subtype with flags 0 and the definitions in the order given |
| Channel.Encode | wayk_proto/src/message/connection_sequence/channel.rs:130-135 | a message encodes exactly when it holds fewer than 256 definitions, all writable; subtype, flags and count come first |
| Channel.Decode | wayk_proto/src/message/connection_sequence/channel.rs:130-135 | a decoded message has a listed or fallback subtype from byte 0, the flags of byte 1 and as many definitions as byte 2 counts |
| Channel.DecodeList | wayk_proto/src/message/connection_sequence/channel.rs:130-135 | the list field is a one-byte-count vector of definitions, each well formed |
| Channel.DecodedDefsWellFormed | wayk_proto/src/message/connection_sequence/channel.rs:130-135 | every definition the list decoder yields is well formed |
| Channel.DecodeFromParts | wayk_proto/src/message/connection_sequence/channel.rs:130-135 | subtype and flags bytes followed by a readable list read as the message |
| Channel.EncodeLayout | wayk_proto/src/message/connection_sequence/channel.rs:130-135 | an encoded message is subtype, flags, count and the definitions one after the other |
| Channel.ListRoundTrip | wayk_proto/src/message/connection_sequence/channel.rs:130-135 | a writable list of well-formed definitions reads back |
| Channel.RoundTrip | wayk_proto/src/message/connection_sequence/channel.rs:130-135 | every well-formed writable message reads back, leaving what follows unread |
| Channel.ReadsBack | wayk_proto/src/message/connection_sequence/channel.rs:130-135 | every well-formed writable message decodes from its own bytes alone |
| Channel.DefVector | wayk_proto/src/message/connection_sequence/channel.rs:200-299 | a definition with no flag is four zero bytes, then the length, the name and a zero |
| Channel.DefReadsBack | wayk_proto/src/message/connection_sequence/channel.rs:213-303 | a well-formed definition decodes from its own bytes |
| Channel.DefVectors | wayk_proto/src/message/connection_sequence/channel.rs:200-303 | the five test definitions (four well-known names and an unknown one) encode to the test bytes |
| Channel.FourDefs | wayk_proto/src/message/connection_sequence/channel.rs:174-198 | four writable definitions are written one after another after the three head bytes |
| Channel.ListRequestEncodes | wayk_proto/src/message/connection_sequence/channel.rs:174-198 | the list request of the four well-known channels encodes to the test body |
| Channel.ListRequestDecodes | wayk_proto/src/message/connection_sequence/channel.rs:153-172 | the test body decodes to that list request |
| Channel.FourWellFormed | wayk_proto/src/message/connection_sequence/channel.rs:174-198 | a list request of four well-formed definitions is well formed |
| Capabilities.NewSurface | wayk_proto/src/message/connection_sequence/capabilities.rs:29-31 | a surface capset of the given flags and list request |
| Capabilities.EncodeSurface | wayk_proto/src/message/connection_sequence/capabilities.rs:20-24 | a surface capset encodes exactly when its list holds fewer than 256 surfaces: flags then the list request |
| Capabilities.DecodeSurface | wayk_proto/src/message/connection_sequence/capabilities.rs:20-24 | a decoded surface capset is well formed with fewer than 256 surfaces |
| Capabilities.SurfaceRoundTrip | wayk_proto/src/message/connection_sequence/capabilities.rs:20-24 | a well-formed surface capset reads back |
| Capabilities.OsInfoQuery | wayk_proto/src/message/connection_sequence/capabilities.rs:342-346 | the `os_info` query holds exactly when the low bit of the flags is set |
| Capabilities.NewSystemOsInfo | wayk_proto/src/message/connection_sequence/capabilities.rs:357-362 | a system capset with only `os_info` set, carrying the information |
| Capabilities.NewSystemOsInfoReadsBack | wayk_proto/src/message/connection_sequence/capabilities.rs:357-394 | the capset built from valid information is well formed and reads back |
| Capabilities.EncodeSystem | wayk_proto/src/message/connection_sequence/capabilities.rs:365-382 | the flags, then the information when there is some; fails only when that information cannot be written |
| Capabilities.DecodeSystem | wayk_proto/src/message/connection_sequence/capabilities.rs:385-394 | a decoded system capset holds information exactly when its flags say so |
| Capabilities.SystemRoundTrip | wayk_proto/src/message/connection_sequence/capabilities.rs:365-394 | a well-formed system capset reads back |
| Capabilities.SystemWithInfoReadsBack | wayk_proto/src/message/connection_sequence/capabilities.rs:385-394 | flags with `os_info` followed by readable information decode to both |
| Capabilities.KindName | wayk_proto/src/message/connection_sequence/capabilities.rs:27-355 | each known capset kind's name is a non-empty ASCII string of at most 12 bytes |
| Capabilities.Dispatch | wayk_proto/src/message/connection_sequence/capabilities.rs:543-562 | a name is dispatched to a known kind only when it is that kind's name |
| Capabilities.DispatchOfName | wayk_proto/src/message/connection_sequence/capabilities.rs:543-562 | every known kind's name is dispatched to that kind |
| Capabilities.UnknownLen | wayk_proto/src/message/connection_sequence/capabilities.rs:407-411 | an unknown capset's length: two, the name's string encoding and the data |
| Capabilities.EncodeUnknown | wayk_proto/src/message/connection_sequence/capabilities.rs:412-419 | an unknown capset encodes exactly when its name fits 64 bytes: size, name, data |
| Capabilities.ReadFrame | wayk_proto/src/message/connection_sequence/capabilities.rs:543-546 | the size word and a valid `NowString64` name, consuming at least one byte |
| Capabilities.FrameReadsBack | wayk_proto/src/message/connection_sequence/capabilities.rs:543-546 | a size word and an encoded name read back |
| Capabilities.UnknownDecodeAsWritten | wayk_proto/src/message/connection_sequence/capabilities.rs:422-435 | as written: the data is sized from the size field but the cursor is not advanced past it, and a size below the head length panics |
| Capabilities.UnknownData | wayk_proto/src/message/connection_sequence/capabilities.rs:422-435 | the data is the size field less the head length, and fails when the size is too small or too few bytes remain |
| Capabilities.DecodeUnknown | wayk_proto/src/message/connection_sequence/capabilities.rs:422-435 | corrected: a decoded unknown capset's size field equals its length and the data is consumed |
| Capabilities.UnknownDataReadsBack | wayk_proto/src/message/connection_sequence/capabilities.rs:422-435 | data sized by a consistent size field reads back, leaving what follows |
| Capabilities.UnknownRoundTrip | wayk_proto/src/message/connection_sequence/capabilities.rs:407-435 | an unknown capset with a consistent size and a valid name reads back under the corrected decoder |
| Capabilities.UnknownAsWrittenLeavesData | wayk_proto/src/message/connection_sequence/capabilities.rs:422-435 | as written, a consistent unknown capset reads back but its data is left unread in the rest |
| Capabilities.UnknownShortSizePanics | wayk_proto/src/message/connection_sequence/capabilities.rs:422-435 | as written, size 0 with an empty name underflows and panics; the corrected decoder refuses it |
| Capabilities.NameAsStr | wayk_proto/src/message/connection_sequence/capabilities.rs:458-471 | a known capset's name is its kind's name |
| Capabilities.SizeTooLarge | wayk_proto/src/message/connection_sequence/capabilities.rs:481-483 | the error of a capset whose size does not fit the word is an encoding error of `NowCapset` |
| Capabilities.Framed | wayk_proto/src/message/connection_sequence/capabilities.rs:479-492 | a framed body is written exactly when body, name and four bytes fit a `u16`: that total, then the name, then the body |
| Capabilities.EncodedLenIsWritten | wayk_proto/src/message/connection_sequence/capabilities.rs:495-540 | a capset encodes exactly when it is unknown or its length fits a `u16`, and its encoding has `encoded_len` bytes |
| Capabilities.Encode | wayk_proto/src/message/connection_sequence/capabilities.rs:495-540 | an unknown capset encodes exactly when its name fits 64 bytes; a known one fails when its body does, and otherwise starts with a `u16` size equal to its whole length |
| Capabilities.TransportVariant | wayk_proto/src/message/connection_sequence/capabilities.rs:549 | the transport branch yields a transport capset |
| Capabilities.SurfaceVariant | wayk_proto/src/message/connection_sequence/capabilities.rs:550 | the surface branch yields a well-formed surface capset |
| Capabilities.LicenseVariant | wayk_proto/src/message/connection_sequence/capabilities.rs:551 | the license branch yields a license capset |
| Capabilities.AccessVariant | wayk_proto/src/message/connection_sequence/capabilities.rs:552 | the access branch yields access definitions with listed codes |
| Capabilities.UpdateVariant | wayk_proto/src/message/connection_sequence/capabilities.rs:553 | the update branch yields a well-formed update capset |
| Capabilities.InputVariant | wayk_proto/src/message/connection_sequence/capabilities.rs:554 | the input branch yields action definitions with listed codes |
| Capabilities.MouseVariant | wayk_proto/src/message/connection_sequence/capabilities.rs:555 | the mouse branch yields a capset with a listed mode |
| Capabilities.SystemVariant | wayk_proto/src/message/connection_sequence/capabilities.rs:556 | the system branch yields a well-formed system capset |
| Capabilities.DecodeKnown | wayk_proto/src/message/connection_sequence/capabilities.rs:548-556 | each known name's branch yields a well-formed capset of that kind |
| Capabilities.DecodeAsWritten | wayk_proto/src/message/connection_sequence/capabilities.rs:543-562 | as written: an unknown capset takes every remaining byte as its data and leaves them unread as well |
| Capabilities.Decode | wayk_proto/src/message/connection_sequence/capabilities.rs:543-562 | corrected: every decoded capset is well formed; an unknown one is read by its size field |
| Capabilities.DecodersAgreeOnKnownNames | wayk_proto/src/message/connection_sequence/capabilities.rs:543-562 | the two decoders agree whenever the name is a known kind's |
| Capabilities.SizeFieldIgnored | wayk_proto/src/message/connection_sequence/capabilities.rs:543-556 | the size field of a known capset is read and not used: any value decodes alike |
| Capabilities.FrameDecodes | wayk_proto/src/message/connection_sequence/capabilities.rs:543-556 | a known kind's frame dispatches to that kind's decoder |
| Capabilities.TransportReadsBack | wayk_proto/src/message/connection_sequence/capabilities.rs:324-338 | a transport capset's body reads back |
| Capabilities.SurfaceReadsBack | wayk_proto/src/message/connection_sequence/capabilities.rs:20-31 | a well-formed surface capset's body reads back |
| Capabilities.LicenseReadsBack | wayk_proto/src/message/connection_sequence/capabilities.rs:313-321 | a license capset's body reads back |
| Capabilities.AccessReadsBack | wayk_proto/src/message/connection_sequence/capabilities.rs:284-302 | an access capset with listed codes and fewer than 256 definitions reads back |
| Capabilities.UpdateReadsBack | wayk_proto/src/message/connection_sequence/capabilities.rs:88-123 | a well-formed update capset with fewer than 256 codecs reads back |
| Capabilities.InputReadsBack | wayk_proto/src/message/connection_sequence/capabilities.rs:184-202 | an input capset with listed codes and fewer than 256 actions reads back |
| Capabilities.MouseReadsBack | wayk_proto/src/message/connection_sequence/capabilities.rs:211-231 | a mouse capset with a listed mode reads back |
| Capabilities.SystemReadsBack | wayk_proto/src/message/connection_sequence/capabilities.rs:347-394 | a well-formed system capset reads back as the system variant |
| Capabilities.KnownBodyReadsBack | wayk_proto/src/message/connection_sequence/capabilities.rs:543-556 | every well-formed known capset's body reads back through its kind's decoder |
| Capabilities.FixedBodyReadsBack | wayk_proto/src/message/connection_sequence/capabilities.rs:543-556 | transport, surface, license and access bodies read back |
| Capabilities.ListBodyReadsBack | wayk_proto/src/message/connection_sequence/capabilities.rs:543-556 | update, input, mouse and system bodies read back |
| Capabilities.KnownFrame | wayk_proto/src/message/connection_sequence/capabilities.rs:510-540 | a known capset's encoding is its body in its kind's frame |
| Capabilities.FramedBytes | wayk_proto/src/message/connection_sequence/capabilities.rs:479-492 | a frame is the total size word, the name's encoding, then the body |
| Capabilities.FramedDecodes | wayk_proto/src/message/connection_sequence/capabilities.rs:543-556 | a frame followed by bytes decodes through its kind's decoder on the body and those bytes |
| Capabilities.KnownReadsBack | wayk_proto/src/message/connection_sequence/capabilities.rs:495-562 | every well-formed writable known capset reads back, leaving what follows |
| Capabilities.UnknownReadsBack | wayk_proto/src/message/connection_sequence/capabilities.rs:407-562 | a well-formed unknown capset reads back under the corrected decoder |
| Capabilities.RoundTrip | wayk_proto/src/message/connection_sequence/capabilities.rs:495-562 | every well-formed writable capset reads back, leaving what follows |
| Capabilities.NameAsStrIsDispatched | wayk_proto/src/message/connection_sequence/capabilities.rs:458-562 | a capset read back keeps its name, and the name dispatches to its kind |
| Capabilities.UnknownSwallowsWhatFollows | wayk_proto/src/message/connection_sequence/capabilities.rs:557-561 | as written, an unknown capset followed by more bytes absorbs them into its data and leaves them unread |
| Capabilities.NewCapabilitiesMsg | wayk_proto/src/message/connection_sequence/capabilities.rs:572-577 | a message with flags 0 and the capsets in the order given |
| Capabilities.MsgValues | wayk_proto/src/message/connection_sequence/capabilities.rs:565-569 | the message's flags fit their field |
| Capabilities.EncodeMsg | wayk_proto/src/message/connection_sequence/capabilities.rs:565-569 | the message encodes exactly when its capset vector does: flags then the vector |
| Capabilities.DecodeMsg | wayk_proto/src/message/connection_sequence/capabilities.rs:565-569 | a decoded message consumed at least five bytes and holds well-formed capsets |
| Capabilities.DecodeYields | wayk_proto/src/message/connection_sequence/capabilities.rs:543-562 | the capset decoder yields only well-formed capsets |
| Capabilities.CapsetsInverse | wayk_proto/src/message/connection_sequence/capabilities.rs:495-562 | the capset codec undoes itself on every list of well-formed capsets |
| Capabilities.MsgRoundTrip | wayk_proto/src/message/connection_sequence/capabilities.rs:565-577 | every message of well-formed capsets that can be written reads back |
| Capsets.CodecFromU16 | wayk_proto/src/message/connection_sequence/capabilities.rs:36-48 | every word reads as a codec that writes back to it; 0 to 3 are listed, above that the fallback |
| Capsets.CodecTable | wayk_proto/src/message/connection_sequence/capabilities.rs:36-48 | a listed codec, or a fallback outside the table, reads back from its word |
| Capsets.QualityFromU8 | wayk_proto/src/message/connection_sequence/capabilities.rs:50-62 | every byte reads as a quality mode that writes back to it; 0 to 3 are listed, above that the fallback |
| Capsets.QualityTable | wayk_proto/src/message/connection_sequence/capabilities.rs:50-62 | a listed quality mode, or a fallback outside the table, reads back |
| Capsets.ActionFromU16 | wayk_proto/src/message/connection_sequence/capabilities.rs:127-155 | every word reads as an action code that writes back to it; the listed codes are 0x01, 0x10-0x17 and 0x20-0x22 |
| Capsets.ActionTable | wayk_proto/src/message/connection_sequence/capabilities.rs:127-155 | a listed action code, or a fallback outside the table, reads back |
| Capsets.AccessFromU16 | wayk_proto/src/message/connection_sequence/capabilities.rs:235-251 | every word reads as an access code that writes back to it; 1 to 6 are listed |
| Capsets.AccessTable | wayk_proto/src/message/connection_sequence/capabilities.rs:235-251 | a listed access code, or a fallback outside the table, reads back |
| Capsets.NewCodecDefWithFlags | wayk_proto/src/message/connection_sequence/capabilities.rs:76-82 | a codec definition of size 8 with the codec and flags given |
| Capsets.NewCodecDef | wayk_proto/src/message/connection_sequence/capabilities.rs:72-74 | the codec definition with no flag |
| Capsets.CodecDefValues | wayk_proto/src/message/connection_sequence/capabilities.rs:64-69 | a codec definition's fields fit their widths |
| Capsets.EncodeCodecDef | wayk_proto/src/message/connection_sequence/capabilities.rs:64-69 | a codec definition is eight bytes |
| Capsets.DecodeCodecDef | wayk_proto/src/message/connection_sequence/capabilities.rs:64-69 | reads exactly when eight bytes remain, re-encoding to them |
| Capsets.CodecDefRoundTrip | wayk_proto/src/message/connection_sequence/capabilities.rs:64-69 | every definition with a canonical codec reads back |
| Capsets.CodecDefInverse | wayk_proto/src/message/connection_sequence/capabilities.rs:64-69 | the codec definition codec undoes itself on every list of such definitions |
| Capsets.NewEnabled | wayk_proto/src/message/connection_sequence/capabilities.rs:170-175 | an action definition with no flag: not disabled |
| Capsets.NewDisabled | wayk_proto/src/message/connection_sequence/capabilities.rs:177-182 | an action definition whose only flag is `disabled` |
| Capsets.ActionDefValues | wayk_proto/src/message/connection_sequence/capabilities.rs:163-167 | an action definition's fields fit their widths |
| Capsets.EncodeActionDef | wayk_proto/src/message/connection_sequence/capabilities.rs:163-167 | an action definition is four bytes |
| Capsets.DecodeActionDef | wayk_proto/src/message/connection_sequence/capabilities.rs:163-167 | reads exactly when four bytes remain, re-encoding to them |
| Capsets.ActionDefRoundTrip | wayk_proto/src/message/connection_sequence/capabilities.rs:163-167 | every definition with a canonical code reads back |
| Capsets.ActionDefInverse | wayk_proto/src/message/connection_sequence/capabilities.rs:163-167 | the action definition codec undoes itself on every list of such definitions |
| Capsets.NewAccessDef | wayk_proto/src/message/connection_sequence/capabilities.rs:267-282 | an access definition whose one flag is `allowed`, `confirm` or `disabled` as asked |
| Capsets.AccessDefValues | wayk_proto/src/message/connection_sequence/capabilities.rs:261-265 | an access definition's fields fit their widths |
| Capsets.EncodeAccessDef | wayk_proto/src/message/connection_sequence/capabilities.rs:261-265 | an access definition is four bytes |
| Capsets.DecodeAccessDef | wayk_proto/src/message/connection_sequence/capabilities.rs:261-265 | reads exactly when four bytes remain, re-encoding to them |
| Capsets.AccessDefRoundTrip | wayk_proto/src/message/connection_sequence/capabilities.rs:261-265 | every definition with a canonical code reads back |
| Capsets.AccessDefInverse | wayk_proto/src/message/connection_sequence/capabilities.rs:261-265 | the access definition codec undoes itself on every list of such definitions |
| Capsets.DefDecodersYield | wayk_proto/src/message/connection_sequence/capabilities.rs:64-265 | the three definition decoders yield only canonical codes |
| Capsets.NewUpdate | wayk_proto/src/message/connection_sequence/capabilities.rs:102-111 | an update capset of the quality and codec given, zero flags, padding and performance, no codec list |
| Capsets.NewUpdateWithCodecs | wayk_proto/src/message/connection_sequence/capabilities.rs:113-122 | an update capset with unspecified quality and codec and the codec list given |
| Capsets.UpdateValues | wayk_proto/src/message/connection_sequence/capabilities.rs:89-97 | the update capset's fixed fields fit their widths |
| Capsets.EncodeUpdate | wayk_proto/src/message/connection_sequence/capabilities.rs:89-97 | an update capset encodes exactly when it lists fewer than 256 codecs |
| Capsets.UpdateOf | wayk_proto/src/message/connection_sequence/capabilities.rs:89-97 | the capset built from read fields has canonical quality and codec |
| Capsets.DecodeUpdate | wayk_proto/src/message/connection_sequence/capabilities.rs:89-97 | a decoded update capset consumed at least 13 bytes and is well formed |
| Capsets.UpdateRoundTrip | wayk_proto/src/message/connection_sequence/capabilities.rs:89-97 | a well-formed update capset with fewer than 256 codecs reads back |
| Capsets.NewInput | wayk_proto/src/message/connection_sequence/capabilities.rs:195-201 | an input capset with zero flags and reserved word and the actions given |
| Capsets.NewAccess | wayk_proto/src/message/connection_sequence/capabilities.rs:295-301 | an access capset with zero flags and reserved word and the definitions given |
| Capsets.TwoWords | wayk_proto/src/message/connection_sequence/capabilities.rs:185-190 | flags and reserved words fit their fields |
| Capsets.EncodeInput | wayk_proto/src/message/connection_sequence/capabilities.rs:185-190 | an input capset encodes exactly when it has fewer than 256 actions |
| Capsets.DecodeInput | wayk_proto/src/message/connection_sequence/capabilities.rs:185-190 | a decoded input capset consumed at least nine bytes; every action has a canonical code |
| Capsets.InputRoundTrip | wayk_proto/src/message/connection_sequence/capabilities.rs:185-190 | an input capset with canonical codes and fewer than 256 actions reads back |
| Capsets.EncodeAccess | wayk_proto/src/message/connection_sequence/capabilities.rs:285-290 | an access capset encodes exactly when it has fewer than 256 definitions |
| Capsets.DecodeAccess | wayk_proto/src/message/connection_sequence/capabilities.rs:285-290 | a decoded access capset consumed at least nine bytes; every definition has a canonical code |
| Capsets.AccessRoundTrip | wayk_proto/src/message/connection_sequence/capabilities.rs:285-290 | an access capset with canonical codes and fewer than 256 definitions reads back |
| Capsets.NewMouse | wayk_proto/src/message/connection_sequence/capabilities.rs:223-230 | a mouse capset of the mode and flags given, padding and reserved zero |
| Capsets.MouseValues | wayk_proto/src/message/connection_sequence/capabilities.rs:212-218 | the mouse capset's fields fit their widths |
| Capsets.EncodeMouse | wayk_proto/src/message/connection_sequence/capabilities.rs:212-218 | a mouse capset is eight bytes |
| Capsets.DecodeMouse | wayk_proto/src/message/connection_sequence/capabilities.rs:212-218 | reads exactly when eight bytes remain, re-encoding to them |
| Capsets.MouseOf | wayk_proto/src/message/connection_sequence/capabilities.rs:212-218 | the capset built from read fields writes back the same fields |
| Capsets.MouseRoundTrip | wayk_proto/src/message/connection_sequence/capabilities.rs:212-218 | a mouse capset with a canonical mode reads back |
| Capsets.EncodeLicense | wayk_proto/src/message/connection_sequence/capabilities.rs:314-317 | a license capset is four bytes |
| Capsets.DecodeLicense | wayk_proto/src/message/connection_sequence/capabilities.rs:314-317 | reads exactly when four bytes remain, re-encoding to them |
| Capsets.LicenseRoundTrip | wayk_proto/src/message/connection_sequence/capabilities.rs:314-317 | every license capset reads back |
| Capsets.EncodeTransport | wayk_proto/src/message/connection_sequence/capabilities.rs:325-328 | a transport capset is four bytes |
| Capsets.DecodeTransport | wayk_proto/src/message/connection_sequence/capabilities.rs:325-328 | reads exactly when four bytes remain, re-encoding to them |
| Capsets.TransportRoundTrip | wayk_proto/src/message/connection_sequence/capabilities.rs:325-328 | every transport capset reads back |
| Surface.SubtypeFromByte | wayk_proto/src/message/now_messages/surface.rs:12-28 | bytes 1 to 6 are the listed subtypes, any other the fallback holding it |
| Surface.SubtypeTable | wayk_proto/src/message/now_messages/surface.rs:12-28 | the subtype table reads and writes back both ways |
| Surface.OrientationFromU16 | wayk_proto/src/message/now_messages/surface.rs:49-61 | 0, 90, 180 and 270 are the listed orientations, any other word the fallback holding it |
| Surface.OrientationTable | wayk_proto/src/message/now_messages/surface.rs:49-61 | the orientation table reads and writes back both ways |
| Surface.DefaultPropertiesValue | wayk_proto/src/message/now_messages/surface.rs:32-47 | the default properties are 0x09: primary and selected, neither mirrored nor any other flag |
| Surface.NewDef | wayk_proto/src/message/now_messages/surface.rs:91-104 | a definition of size 16, default properties and landscape orientation, with the id and rectangle given |
| Surface.DefWithFlags | wayk_proto/src/message/now_messages/surface.rs:106-111 | the same definition with only its flags replaced |
| Surface.DefWithOrientation | wayk_proto/src/message/now_messages/surface.rs:113-118 | the same definition with only its orientation replaced |
| Surface.DefValues | wayk_proto/src/message/now_messages/surface.rs:63-86 | a definition's written fields fit their widths |
| Surface.EncodeDef | wayk_proto/src/message/now_messages/surface.rs:63-86 | a definition is sixteen bytes: the fields marked ignored are not written |
| Surface.DefOf | wayk_proto/src/message/now_messages/surface.rs:63-86 | the definition built from read fields writes the same fields back |
| Surface.DecodeDef | wayk_proto/src/message/now_messages/surface.rs:63-86 | reads exactly when sixteen bytes remain, with a canonical orientation |
| Surface.DefRoundTrip | wayk_proto/src/message/now_messages/surface.rs:63-86 | every definition with a canonical orientation reads back |
| Surface.DefInverse | wayk_proto/src/message/now_messages/surface.rs:63-86 | the definition codec undoes itself on every list of such definitions |
| Surface.DefDecoderYields | wayk_proto/src/message/now_messages/surface.rs:63-86 | the definition decoder yields only canonical orientations |
| Surface.NewMap | wayk_proto/src/message/now_messages/surface.rs:135-143 | a mapping of the required size and no flag, with the ids and rectangle given |
| Surface.MapValues | wayk_proto/src/message/now_messages/surface.rs:123-130 | a mapping's fields fit their widths |
| Surface.EncodeMap | wayk_proto/src/message/now_messages/surface.rs:123-133 | a mapping is its required size, sixteen bytes |
| Surface.MapOf | wayk_proto/src/message/now_messages/surface.rs:123-130 | the mapping built from read fields writes them back |
| Surface.DecodeMap | wayk_proto/src/message/now_messages/surface.rs:123-130 | reads exactly when sixteen bytes remain |
| Surface.MapRoundTrip | wayk_proto/src/message/now_messages/surface.rs:123-130 | every mapping reads back |
| Surface.MapInverse | wayk_proto/src/message/now_messages/surface.rs:123-130 | the mapping codec undoes itself on every list |
| Surface.NewListReq | wayk_proto/src/message/now_messages/surface.rs:213-231 | a list request: subtype `ListReq`, no flag, the desktop size and the surfaces given |
| Surface.NewMapReqAsWritten | wayk_proto/src/message/now_messages/surface.rs:267-285 | as written, a map request built by the constructor carries subtype `ListReq` |
| Surface.NewMapReq | wayk_proto/src/message/now_messages/surface.rs:267-285 | corrected: a map request carries subtype `MapReq`, no flag, the desktop size and the mappings given |
| Surface.NewResponse | wayk_proto/src/message/now_messages/surface.rs:234-347 | a list, map or select response of the flags and sequence id given |
| Surface.NewSelectReq | wayk_proto/src/message/now_messages/surface.rs:319-327 | a select request of the flags, sequence id and surface given, reserved zero |
| Surface.HeadValues | wayk_proto/src/message/now_messages/surface.rs:199-207 | the common desktop head's fields fit their widths |
| Surface.HeadOf | wayk_proto/src/message/now_messages/surface.rs:199-207 | a head built from read fields has a canonical subtype and writes them back |
| Surface.HeadSize | wayk_proto/src/message/now_messages/surface.rs:199-207 | the desktop head is eight bytes |
| Surface.EncodeListReq | wayk_proto/src/message/now_messages/surface.rs:199-207 | a list request encodes exactly when it has fewer than 256 surfaces, starting with its subtype |
| Surface.DecodeListReq | wayk_proto/src/message/now_messages/surface.rs:199-211 | a decoded list request consumed at least nine bytes, keeps the subtype byte read and counts its surfaces |
| Surface.ListReqRoundTrip | wayk_proto/src/message/now_messages/surface.rs:199-207 | a list request with canonical subtype and definitions and fewer than 256 surfaces reads back |
| Surface.EncodeMapReq | wayk_proto/src/message/now_messages/surface.rs:253-261 | a map request encodes exactly when it has fewer than 256 mappings, starting with its subtype |
| Surface.DecodeMapReq | wayk_proto/src/message/now_messages/surface.rs:253-265 | a decoded map request consumed at least nine bytes, keeps the subtype byte read and counts its mappings |
| Surface.MapReqRoundTrip | wayk_proto/src/message/now_messages/surface.rs:253-261 | a map request with a canonical subtype and fewer than 256 mappings reads back |
| Surface.ResponseValues | wayk_proto/src/message/now_messages/surface.rs:234-239 | a response's fields fit their widths |
| Surface.EncodeResponse | wayk_proto/src/message/now_messages/surface.rs:234-239 | a response is four bytes starting with its subtype |
| Surface.DecodeResponse | wayk_proto/src/message/now_messages/surface.rs:234-239 | reads exactly when four bytes remain, re-encoding to them |
| Surface.ResponseOf | wayk_proto/src/message/now_messages/surface.rs:234-239 | a response built from read fields writes them back |
| Surface.ResponseRoundTrip | wayk_proto/src/message/now_messages/surface.rs:234-347 | a response with a canonical subtype reads back |
| Surface.SelectReqValues | wayk_proto/src/message/now_messages/surface.rs:307-314 | a select request's fields fit their widths |
| Surface.EncodeSelectReq | wayk_proto/src/message/now_messages/surface.rs:307-314 | a select request is eight bytes starting with its subtype |
| Surface.SelectReqOf | wayk_proto/src/message/now_messages/surface.rs:307-314 | a select request built from read fields writes them back |
| Surface.DecodeSelectReq | wayk_proto/src/message/now_messages/surface.rs:307-314 | reads exactly when eight bytes remain, re-encoding to them |
| Surface.SelectReqRoundTrip | wayk_proto/src/message/now_messages/surface.rs:307-314 | a select request with a canonical subtype reads back |
| Surface.Encode | wayk_proto/src/message/now_messages/surface.rs:148-159 | list and map requests encode exactly when their lists fit a one-byte count; every other message always encodes |
| Surface.ListReqVariant | wayk_proto/src/message/now_messages/surface.rs:151 | subtype 1 decodes a well-formed list request |
| Surface.MapReqVariant | wayk_proto/src/message/now_messages/surface.rs:153 | subtype 3 decodes a well-formed map request |
| Surface.SelectReqVariant | wayk_proto/src/message/now_messages/surface.rs:155 | subtype 5 decodes a well-formed select request |
| Surface.ResponseVariant | wayk_proto/src/message/now_messages/surface.rs:152-156 | subtypes 2, 4 and 6 decode the matching well-formed response |
| Surface.Decode | wayk_proto/src/message/now_messages/surface.rs:148-159 | every decoded message is well formed; a subtype byte outside 1 to 6 gives the custom variant holding the whole buffer |
| Surface.FirstByte | wayk_proto/src/message/now_messages/surface.rs:148-159 | the subtype read is the first byte |
| Surface.ListReqReadsBack | wayk_proto/src/message/now_messages/surface.rs:151 | a well-formed list request reads back as the list request variant |
| Surface.MapReqReadsBack | wayk_proto/src/message/now_messages/surface.rs:153 | a well-formed map request reads back as the map request variant |
| Surface.SelectReqReadsBack | wayk_proto/src/message/now_messages/surface.rs:155 | a well-formed select request reads back as the select request variant |
| Surface.ListRspReadsBack | wayk_proto/src/message/now_messages/surface.rs:152 | a well-formed list response reads back as the list response variant |
| Surface.MapRspReadsBack | wayk_proto/src/message/now_messages/surface.rs:154 | a well-formed map response reads back as the map response variant |
| Surface.SelectRspReadsBack | wayk_proto/src/message/now_messages/surface.rs:156 | a well-formed select response reads back as the select response variant |
| Surface.RoundTrip | wayk_proto/src/message/now_messages/surface.rs:148-159 | every well-formed message reads back; a custom one returns its payload as the unread rest |
| Surface.MapReqAsWrittenNeverReadsBack | wayk_proto/src/message/now_messages/surface.rs:267-285 | as written, no map request built by the constructor reads back as itself |
| Surface.MapReqAsWrittenReadsAsListReq | wayk_proto/src/message/now_messages/surface.rs:267-285 | as written, an empty map request is read back as a list request |
| Surface.MapReqReadsBackAsItself | wayk_proto/src/message/now_messages/surface.rs:267-285 | corrected, every map request built by the constructor reads back as itself |
| Surface.HeadBytes | wayk_proto/src/message/now_messages/surface.rs:355-369 | the head of the test list request spells the test's first eight bytes |
| Surface.DefBytes | wayk_proto/src/message/now_messages/surface.rs:355-369 | the head of the test definition spells its eight bytes |
| Surface.SampleDefBytes | wayk_proto/src/message/now_messages/surface.rs:355-369 | the test definition spells the test's definition bytes |
| Surface.SampleBytes | wayk_proto/src/message/now_messages/surface.rs:394-407 | the test list request encodes to the 25 test bytes |
| Surface.SampleFields | wayk_proto/src/message/now_messages/surface.rs:394-407 | the sample message is the test's list request |
| Surface.ListReqVector | wayk_proto/src/message/now_messages/surface.rs:355-407 | the test list request encodes to the test bytes and decodes back from them |
| Update.MessageTypeFromU8 | wayk_proto/src/message/now_messages/update.rs:6-16 | bytes 1 to 3 are the listed subtypes, any other the fallback holding it |
| Update.MessageTypeTable | wayk_proto/src/message/now_messages/update.rs:6-16 | the subtype table reads and writes back both ways |
| Update.FrameFlagsIndependent | wayk_proto/src/message/now_messages/update.rs:18-23 | setting `frame_first` leaves `frame_last` as it was and the other way round |
| Update.RegionFlagFromU8 | wayk_proto/src/message/now_messages/update.rs:25-33 | bytes 1 and 2 are the listed region flags, any other the fallback |
| Update.RegionFlagTable | wayk_proto/src/message/now_messages/update.rs:25-33 | the region flag table reads and writes back both ways |
| Update.EncodeRect | wayk_proto/src/message/now_messages/update.rs:35-40 | a region's rectangle is written by the size-rectangle codec |
| Update.RectInverse | wayk_proto/src/message/now_messages/update.rs:35-40 | the size-rectangle codec undoes itself on every list |
| Update.RegionValues | wayk_proto/src/message/now_messages/update.rs:35-40 | a region's fixed fields fit their widths |
| Update.RegionOf | wayk_proto/src/message/now_messages/update.rs:35-40 | a region built from read fields writes them back, with a canonical flag |
| Update.EncodeRegion | wayk_proto/src/message/now_messages/update.rs:35-40 | a region encodes exactly when it has fewer than 256 rectangles |
| Update.DecodeRegion | wayk_proto/src/message/now_messages/update.rs:35-40 | a decoded region consumed at least four bytes and is well formed |
| Update.RegionRoundTrip | wayk_proto/src/message/now_messages/update.rs:35-40 | every well-formed region reads back |
| Update.RegionInverse | wayk_proto/src/message/now_messages/update.rs:35-40 | the region codec undoes itself on every list of well-formed regions |
| Update.RegionDecoderYields | wayk_proto/src/message/now_messages/update.rs:35-40 | the region decoder yields only well-formed regions |
| Update.RegionsValues | wayk_proto/src/message/now_messages/update.rs:69-86 | the fixed fields of a refresh or suppress message fit their widths |
| Update.RegionsOf | wayk_proto/src/message/now_messages/update.rs:69-86 | a refresh or suppress message built from read fields writes them back |
| Update.EncodeRegions | wayk_proto/src/message/now_messages/update.rs:69-86 | a refresh or suppress message encodes exactly when its regions fit, starting with its subtype |
| Update.DecodeRegions | wayk_proto/src/message/now_messages/update.rs:69-86 | a decoded refresh or suppress message consumed at least four bytes and keeps its subtype byte |
| Update.RegionsRoundTrip | wayk_proto/src/message/now_messages/update.rs:69-86 | a refresh or suppress message with canonical subtype and well-formed regions reads back |
| Update.GraphicsRequiredSizeIsFixedPart | wayk_proto/src/message/now_messages/update.rs:52-67 | the required size 24 is the fixed fields, the rectangle and the data's four-byte length |
| Update.GraphicsValues | wayk_proto/src/message/now_messages/update.rs:52-63 | the graphics message's fixed fields fit their widths |
| Update.GraphicsOf | wayk_proto/src/message/now_messages/update.rs:52-63 | a graphics message built from read fields writes them back |
| Update.EncodeGraphics | wayk_proto/src/message/now_messages/update.rs:52-63 | a graphics message encodes exactly when its data fits a `u32` length: 24 bytes then the data |
| Update.DecodeGraphicsHead | wayk_proto/src/message/now_messages/update.rs:52-63 | the fixed part reads exactly when 20 bytes remain |
| Update.DecodeGraphics | wayk_proto/src/message/now_messages/update.rs:52-63 | corrected: a decoded graphics message keeps its subtype byte and consumes its data |
| Update.DecodeGraphicsMeaning | wayk_proto/src/message/now_messages/update.rs:52-63 | corrected decoding succeeds exactly when the length word's bytes are present, and the data is those bytes |
| Update.DecodeGraphicsAsWritten | wayk_proto/src/message/now_messages/update.rs:52-63 | as written: the data field is read without moving past it, so the rest starts right after the length word |
| Update.GraphicsRoundTrip | wayk_proto/src/message/now_messages/update.rs:52-63 | corrected, every graphics message reads back leaving what follows |
| Update.GraphicsAsWrittenLeavesData | wayk_proto/src/message/now_messages/update.rs:52-63 | as written, a graphics message reads back with its data left in the unread rest |
| Update.Encode | wayk_proto/src/message/now_messages/update.rs:42-50 | graphics encodes exactly when its data fits; refresh and suppress exactly when their regions fit |
| Update.GraphicsVariant | wayk_proto/src/message/now_messages/update.rs:45 | subtype 1 decodes a well-formed graphics message |
| Update.RefreshVariant | wayk_proto/src/message/now_messages/update.rs:46 | subtype 2 decodes a well-formed refresh message |
| Update.SuppressVariant | wayk_proto/src/message/now_messages/update.rs:47 | subtype 3 decodes a well-formed suppress message |
| Update.Decode | wayk_proto/src/message/now_messages/update.rs:42-50 | every decoded message is well formed; a subtype byte outside 1 to 3 gives the custom variant holding the whole buffer |
| Update.FirstByte | wayk_proto/src/message/now_messages/update.rs:42-50 | the subtype read is the first byte |
| Update.GraphicsReadsBack | wayk_proto/src/message/now_messages/update.rs:45 | a well-formed graphics message reads back as the graphics variant |
| Update.RefreshReadsBack | wayk_proto/src/message/now_messages/update.rs:46 | a well-formed refresh message reads back as the refresh variant |
| Update.SuppressReadsBack | wayk_proto/src/message/now_messages/update.rs:47 | a well-formed suppress message reads back as the suppress variant |
| Update.RoundTrip | wayk_proto/src/message/now_messages/update.rs:42-50 | every well-formed message reads back; a custom one returns its payload as the unread rest |
| Update.GraphicsFieldBytes | wayk_proto/src/message/now_messages/update.rs:95-112 | the test message's fixed fields spell the test bytes |
| Update.GraphicsParts | wayk_proto/src/message/now_messages/update.rs:52-63 | an encoded graphics message is its fixed fields, its rectangle, its length and its data |
| Update.GraphicsEncoding | wayk_proto/src/message/now_messages/update.rs:95-112 | the test message encodes to the test payload |
| Update.GraphicsVector | wayk_proto/src/message/now_messages/update.rs:95-126 | the test payload decodes to the JPEG graphics message of frame 1 with flags 3 and five data bytes, and back |
| System.InfoTypeFromU16 | wayk_proto/src/message/now_messages/system.rs:98-104 | every word reads as an info type that writes back to it; only 1 is listed |
| System.InfoTypeTable | wayk_proto/src/message/now_messages/system.rs:98-104 | a listed info type, or a fallback outside the table, reads back |
| System.OsTypeFromU8 | wayk_proto/src/message/now_messages/system.rs:119-133 | every byte reads as an OS type that writes back to it; 1 to 5 are listed |
| System.OsTypeTable | wayk_proto/src/message/now_messages/system.rs:119-133 | a listed OS type, or a fallback outside the table, reads back |
| System.OsArchFromU8 | wayk_proto/src/message/now_messages/system.rs:135-147 | every byte reads as an architecture that writes back to it; 1 to 4 are listed |
| System.OsArchTable | wayk_proto/src/message/now_messages/system.rs:135-147 | a listed architecture, or a fallback outside the table, reads back |
| System.FlagQueries | wayk_proto/src/message/now_messages/system.rs:112-117 | `extra()` and `kernel()` test bits 0 and 1 of the flags |
| System.SetKernelFlag | wayk_proto/src/message/now_messages/system.rs:112-117 | setting `kernel` sets that bit and leaves `extra` as it was |
| System.SetExtraFlag | wayk_proto/src/message/now_messages/system.rs:112-117 | setting `extra` sets that bit and leaves `kernel` as it was |
| System.WindowsValues | wayk_proto/src/message/now_messages/system.rs:15-26 | the Windows extra's fixed fields fit their widths |
| System.EncodeWindows | wayk_proto/src/message/now_messages/system.rs:15-26 | the Windows extra is 16 fixed bytes and its two strings with their length bytes and terminators |
| System.WindowsOf | wayk_proto/src/message/now_messages/system.rs:15-26 | a Windows extra built from read fields writes them back |
| System.DecodeWindows | wayk_proto/src/message/now_messages/system.rs:15-26 | a decoded Windows extra has valid strings and consumed bytes |
| System.DecodeWindowsNames | wayk_proto/src/message/now_messages/system.rs:15-26 | the edition id and product name read as a `NowString32` and a `NowString64` |
| System.WindowsRoundTrip | wayk_proto/src/message/now_messages/system.rs:15-26 | every valid Windows extra reads back |
| System.NewPlatformExtra | wayk_proto/src/message/now_messages/system.rs:34-86 | a Mac, Linux, iOS or Android extra of the flags given, reserved zero |
| System.PlatformValues | wayk_proto/src/message/now_messages/system.rs:28-77 | a platform extra's fields fit their widths |
| System.EncodePlatform | wayk_proto/src/message/now_messages/system.rs:28-77 | a platform extra is four bytes |
| System.PlatformOf | wayk_proto/src/message/now_messages/system.rs:28-77 | a platform extra built from read fields writes them back |
| System.DecodePlatform | wayk_proto/src/message/now_messages/system.rs:28-77 | reads exactly when four bytes remain, re-encoding to them |
| System.PlatformRoundTrip | wayk_proto/src/message/now_messages/system.rs:28-77 | every platform extra reads back |
| System.HeadBytes | wayk_proto/src/message/now_messages/system.rs:191-203 | subtype, flags, OS type and architecture are six bytes |
| System.VersionBytes | wayk_proto/src/message/now_messages/system.rs:203-211 | the three version words are six bytes |
| System.FrontBytes | wayk_proto/src/message/now_messages/system.rs:191-211 | the fixed part before the strings is twelve bytes |
| System.EncodersAgreeWithKernel | wayk_proto/src/message/now_messages/system.rs:191-238 | with the kernel flag set, the encoder as written and the corrected one write the same bytes |
| System.U16Desc | wayk_proto/src/message/now_messages/system.rs:244-248 | a word field reads exactly when two bytes remain |
| System.U8Desc | wayk_proto/src/message/now_messages/system.rs:245-246 | a byte field reads exactly when one byte remains |
| System.StrDesc | wayk_proto/src/message/now_messages/system.rs:249-250 | a string field reads a valid string of its size |
| System.U16DescRoundTrip | wayk_proto/src/message/now_messages/system.rs:244-248 | a written word reads back |
| System.U8DescRoundTrip | wayk_proto/src/message/now_messages/system.rs:245-246 | a written byte reads back |
| System.StrDescRoundTrip | wayk_proto/src/message/now_messages/system.rs:249-250 | a written valid string reads back |
| System.SkipSubtype | wayk_proto/src/message/now_messages/system.rs:242 | the decoder steps over two bytes of subtype without reading them, or to the end of a shorter buffer |
| System.DecodeHead | wayk_proto/src/message/now_messages/system.rs:242-246 | the head reads exactly when six bytes remain, with canonical OS type and architecture |
| System.DecodeVersion | wayk_proto/src/message/now_messages/system.rs:247-249 | the version reads exactly when six bytes remain |
| System.DecodeNames | wayk_proto/src/message/now_messages/system.rs:250-251 | the build and name read as a `NowString16` and a `NowString64` |
| System.DecodeKernel | wayk_proto/src/message/now_messages/system.rs:252-269 | without the kernel flag the four kernel strings are empty and nothing is read; with it they are read as strings of sizes 16, 16, 32 and 128 |
| System.DecodeExtra | wayk_proto/src/message/now_messages/system.rs:271-283 | no extra is read without the extra flag or for an unlisted OS type; otherwise the variant of the OS type |
| System.DecodeFront | wayk_proto/src/message/now_messages/system.rs:241-251 | the front reads valid names and canonical table values |
| System.DecodeTail | wayk_proto/src/message/now_messages/system.rs:252-300 | the kernel strings and the extra read after the front |
| System.WithTail | wayk_proto/src/message/now_messages/system.rs:285-299 | the information assembled keeps the front and carries the kernel strings and the extra read |
| System.DecodeOsInfo | wayk_proto/src/message/now_messages/system.rs:240-301 | every decoded OS information is valid and one the decoder can produce |
| System.FrontOf | wayk_proto/src/message/now_messages/system.rs:240-301 | the front of an information keeps its flags and OS type and has no extra |
| System.HeadReadsBack | wayk_proto/src/message/now_messages/system.rs:191-203 | a head with canonical table values reads back |
| System.VersionReadsBack | wayk_proto/src/message/now_messages/system.rs:203-211 | a version reads back |
| System.NamesReadBack | wayk_proto/src/message/now_messages/system.rs:212-217 | the build and name strings read back |
| System.FrontReadsBack | wayk_proto/src/message/now_messages/system.rs:191-217 | the whole front reads back |
| System.KernelReadsBack | wayk_proto/src/message/now_messages/system.rs:218-229 | the four kernel strings read back |
| System.ExtraReadsBack | wayk_proto/src/message/now_messages/system.rs:231-283 | the extra reads back under its flag and OS type |
| System.ExtraSomeReadsBack | wayk_proto/src/message/now_messages/system.rs:271-282 | an extra of the variant that matches the OS type reads back when the extra flag is set, leaving the rest untouched |
| System.TailKernelReadsBack | wayk_proto/src/message/now_messages/system.rs:252-269 | the kernel part of the corrected tail reads back |
| System.KernelPresentReadsBack | wayk_proto/src/message/now_messages/system.rs:252-264 | with the kernel flag, the tail's kernel strings read back |
| System.KernelAbsentReadsBack | wayk_proto/src/message/now_messages/system.rs:264-269 | without the kernel flag, nothing is read and the strings are empty |
| System.WithOwnTail | wayk_proto/src/message/now_messages/system.rs:285-299 | an information rebuilt from its own front, kernel strings and extra is itself |
| System.TailReadsBack | wayk_proto/src/message/now_messages/system.rs:252-300 | the corrected tail reads back |
| System.OsInfoRoundTrip | wayk_proto/src/message/now_messages/system.rs:169-301 | corrected: every valid decodable OS information reads back, leaving what follows |
| System.EncodeOsInfoParts | wayk_proto/src/message/now_messages/system.rs:191-238 | the corrected encoding is the front, the names and the tail |
| System.EncodeOsInfo | wayk_proto/src/message/now_messages/system.rs:191-238 | corrected: at least 16 bytes, starting with the subtype word 1 and the front fields |
| System.EncodeOsInfoAsWritten | wayk_proto/src/message/now_messages/system.rs:191-238 | as written: with the kernel flag set, the bytes of the corrected encoder; without it, longer by exactly the four kernel strings the decoder skips |
| System.EmptyKernelBytes | wayk_proto/src/message/now_messages/system.rs:218-229 | empty kernel strings are eight bytes: length and terminator each |
| System.AsWrittenRoundTripWithKernel | wayk_proto/src/message/now_messages/system.rs:191-301 | as written, an information with the kernel flag reads back |
| System.AsWrittenLeavesKernelBytes | wayk_proto/src/message/now_messages/system.rs:191-301 | as written, without the kernel flag the eight bytes of empty kernel strings are left unread after the information |
| System.ZeroPlatformBytes | wayk_proto/src/message/now_messages/system.rs:28-77 | a zero platform extra is four zero bytes |
| System.EncodersWithoutKernel | wayk_proto/src/message/now_messages/system.rs:191-238 | as written, without the kernel flag eight zero bytes come between the names and the extra |
| System.AsWrittenMisreadsExtra | wayk_proto/src/message/now_messages/system.rs:191-301 | as written, a Linux extra without the kernel flag is read from those zero bytes, so the decoded extra is zero and its own bytes are left unread |
| System.NewOsInfo | wayk_proto/src/message/now_messages/system.rs:306-330 | an information with no flag, empty strings but the build, no extra |
| System.SetKernelInfos | wayk_proto/src/message/now_messages/system.rs:332-346 | sets the kernel flag and replaces the name and the kernel strings, nothing else |
| System.SetExtraInfos | wayk_proto/src/message/now_messages/system.rs:348-351 | sets the extra flag and the extra, nothing else |
| System.BuiltOsInfoReadsBack | wayk_proto/src/message/now_messages/system.rs:514-526 | an information built by `new`, `set_kernel_infos` and optionally `set_extra_infos` is valid and reads back |
| System.EncodeInfo | wayk_proto/src/message/now_messages/system.rs:354-358 | the system information is the OS information's encoding |
| System.OsInfoStartsWithSubtype | wayk_proto/src/message/now_messages/system.rs:191-194 | the OS information starts with its subtype word 1 |
| System.DecodeInfo | wayk_proto/src/message/now_messages/system.rs:354-358 | information decodes only when it starts with subtype 1; any other subtype is refused as unlisted |
| System.InfoRoundTrip | wayk_proto/src/message/now_messages/system.rs:354-358 | every valid decodable system information reads back |
| System.MessageTypeFromU8 | wayk_proto/src/message/now_messages/system.rs:362-372 | every byte reads as a subtype that writes back to it; 1 to 3 are listed |
| System.MessageTypeTable | wayk_proto/src/message/now_messages/system.rs:362-372 | a listed subtype, or a fallback outside the table, reads back |
| System.NewInfoReq | wayk_proto/src/message/now_messages/system.rs:385-391 | an info request of the info type given, flags zero |
| System.InfoReqValues | wayk_proto/src/message/now_messages/system.rs:374-380 | an info request's fields fit their widths |
| System.EncodeInfoReq | wayk_proto/src/message/now_messages/system.rs:374-380 | an info request is four bytes starting with its subtype |
| System.InfoReqOf | wayk_proto/src/message/now_messages/system.rs:374-380 | an info request built from read fields writes them back |
| System.DecodeInfoReq | wayk_proto/src/message/now_messages/system.rs:374-380 | reads exactly when four bytes remain, re-encoding to them |
| System.InfoReqRoundTrip | wayk_proto/src/message/now_messages/system.rs:374-380 | an info request with canonical values reads back |
| System.NewInfoRsp | wayk_proto/src/message/now_messages/system.rs:405-411 | an info response carrying the information given, flags zero |
| System.RspHeadValues | wayk_proto/src/message/now_messages/system.rs:394-400 | an info response's head fits its fields |
| System.EncodeInfoRsp | wayk_proto/src/message/now_messages/system.rs:394-400 | an info response starts with its subtype and carries more than its head |
| System.InfoRspOf | wayk_proto/src/message/now_messages/system.rs:394-400 | an info response built from read fields writes them back |
| System.DecodeInfoRsp | wayk_proto/src/message/now_messages/system.rs:394-400 | a decoded info response has a canonical subtype and valid information |
| System.InfoRspOfValues | wayk_proto/src/message/now_messages/system.rs:394-400 | an info response rebuilt from its own head values is itself |
| System.InfoRspRoundTrip | wayk_proto/src/message/now_messages/system.rs:394-400 | an info response with a canonical subtype and valid information reads back |
| System.NewShutdown | wayk_proto/src/message/now_messages/system.rs:435-444 | a shutdown of the flags, timeout and message given, reserved and reason zero |
| System.ShutdownValues | wayk_proto/src/message/now_messages/system.rs:421-430 | a shutdown's fixed fields fit their widths |
| System.EncodeShutdown | wayk_proto/src/message/now_messages/system.rs:421-430 | a shutdown is twelve fixed bytes and its `NowString256` message |
| System.ShutdownOf | wayk_proto/src/message/now_messages/system.rs:421-430 | a shutdown built from read fields writes them back |
| System.DecodeShutdown | wayk_proto/src/message/now_messages/system.rs:421-430 | a decoded shutdown consumed at least twelve bytes and has a valid message |
| System.ShutdownOfValues | wayk_proto/src/message/now_messages/system.rs:421-430 | a shutdown rebuilt from its own values is itself |
| System.ShutdownRoundTrip | wayk_proto/src/message/now_messages/system.rs:421-430 | a shutdown with a canonical subtype and valid message reads back |
| System.InfoReqVariant | wayk_proto/src/message/now_messages/system.rs:450 | subtype 1 decodes a well-formed info request |
| System.InfoRspVariant | wayk_proto/src/message/now_messages/system.rs:452 | subtype 2 decodes a well-formed info response |
| System.ShutdownVariant | wayk_proto/src/message/now_messages/system.rs:453 | subtype 3 decodes a well-formed shutdown |
| System.Decode | wayk_proto/src/message/now_messages/system.rs:447-454 | a decoded message has subtype 1 to 3 and is well formed; any other subtype is refused as unlisted |
| System.Encode | wayk_proto/src/message/now_messages/system.rs:447-454 | every message whose OS information and shutdown text satisfy their string types encodes; the encoding starts with the subtype byte; an information request is four bytes, a shutdown 14 bytes more than its text |
| System.FirstByte | wayk_proto/src/message/now_messages/system.rs:447-454 | the subtype read is the first byte |
| System.InfoReqReadsBack | wayk_proto/src/message/now_messages/system.rs:450 | a well-formed info request reads back as the info request variant |
| System.InfoRspReadsBack | wayk_proto/src/message/now_messages/system.rs:452 | a well-formed info response reads back as the info response variant |
| System.ShutdownReadsBack | wayk_proto/src/message/now_messages/system.rs:453 | a well-formed shutdown reads back as the shutdown variant |
| System.RoundTrip | wayk_proto/src/message/now_messages/system.rs:447-454 | every well-formed system message reads back, leaving what follows |
| Input.MessageTypeFromU8 | wayk_proto/src/message/now_messages/input.rs:9-25 | bytes 1 to 6 are the listed subtypes, any other the fallback holding it |
| Input.MessageTypeTable | wayk_proto/src/message/now_messages/input.rs:9-25 | the subtype table reads and writes back both ways |
| Input.MouseFlagsFromU8 | wayk_proto/src/message/now_messages/input.rs:27-43 | 0x00, 0x01, 0x02, 0x04, 0x10 and 0x20 are the listed button values, any other the fallback |
| Input.MouseFlagsTable | wayk_proto/src/message/now_messages/input.rs:27-43 | the button table reads and writes back both ways |
| Input.ToggleKeysFromU16 | wayk_proto/src/message/now_messages/input.rs:164-176 | 1, 2, 4 and 8 are the listed toggle keys, any other word the fallback |
| Input.ToggleKeysTable | wayk_proto/src/message/now_messages/input.rs:164-176 | the toggle key table reads and writes back both ways |
| Input.NewMouse | wayk_proto/src/message/now_messages/input.rs:54-61 | a mouse event of the buttons and position given |
| Input.NewScroll | wayk_proto/src/message/now_messages/input.rs:73-80 | a scroll event of the position given, no flag |
| Input.NewKeyboard | wayk_proto/src/message/now_messages/input.rs:91-97 | a keyboard event of the flags and code given |
| Input.NewUnicode | wayk_proto/src/message/now_messages/input.rs:156-161 | a unicode event of the code bytes given |
| Input.NewToggle | wayk_proto/src/message/now_messages/input.rs:186-192 | a toggle event of the code given, no flag |
| Input.NewAction | wayk_proto/src/message/now_messages/input.rs:203-209 | an action event of the code given, no flag |
| Input.SubtypeField | wayk_proto/src/message/now_messages/input.rs:45-51 | the subtype field reads exactly when a byte remains, through the subtype table |
| Input.SubtypeFieldRoundTrip | wayk_proto/src/message/now_messages/input.rs:45-51 | a canonical subtype reads back |
| Input.EncodeMouse | wayk_proto/src/message/now_messages/input.rs:45-51 | a mouse event is six bytes starting with its subtype |
| Input.DecodeMouse | wayk_proto/src/message/now_messages/input.rs:45-51 | reads exactly when six bytes remain, keeping the subtype byte and a canonical button value |
| Input.MouseRoundTrip | wayk_proto/src/message/now_messages/input.rs:45-51 | a mouse event with canonical values reads back |
| Input.EncodeScroll | wayk_proto/src/message/now_messages/input.rs:64-70 | a scroll event is six bytes starting with its subtype |
| Input.DecodeScroll | wayk_proto/src/message/now_messages/input.rs:64-70 | reads exactly when six bytes remain |
| Input.ScrollRoundTrip | wayk_proto/src/message/now_messages/input.rs:64-70 | a scroll event with a canonical subtype reads back |
| Input.EncodeCode | wayk_proto/src/message/now_messages/input.rs:83-88 | a keyboard or toggle event is four bytes starting with its subtype |
| Input.DecodeCode | wayk_proto/src/message/now_messages/input.rs:83-88 | reads exactly when four bytes remain |
| Input.CodeRoundTrip | wayk_proto/src/message/now_messages/input.rs:83-88 | a keyboard or toggle event with a canonical subtype reads back |
| Input.EncodeAction | wayk_proto/src/message/now_messages/input.rs:195-200 | an action event is four bytes starting with its subtype |
| Input.DecodeAction | wayk_proto/src/message/now_messages/input.rs:195-200 | reads exactly when four bytes remain, with a canonical action code |
| Input.ActionRoundTrip | wayk_proto/src/message/now_messages/input.rs:195-200 | an action event with canonical values reads back |
| Input.EncodeUnicode | wayk_proto/src/message/now_messages/input.rs:106-124 | a unicode event encodes unless its code length is a multiple of 256 (where the `u8` subtraction underflows) |
| Input.DecodeUnicode | wayk_proto/src/message/now_messages/input.rs:127-152 | a decoded unicode event has one to four code bytes |
| Input.UnicodeRoundTrip | wayk_proto/src/message/now_messages/input.rs:106-152 | a unicode event of one to four code bytes reads back |
| Input.Encode | wayk_proto/src/message/now_messages/input.rs:212-223 | every event but unicode always encodes; a custom one is its payload |
| Input.MouseVariant | wayk_proto/src/message/now_messages/input.rs:215 | subtype 1 decodes a well-formed mouse event |
| Input.ScrollVariant | wayk_proto/src/message/now_messages/input.rs:216 | subtype 2 decodes a well-formed scroll event |
| Input.KeyboardVariant | wayk_proto/src/message/now_messages/input.rs:217 | subtype 3 decodes a well-formed keyboard event |
| Input.UnicodeVariant | wayk_proto/src/message/now_messages/input.rs:218 | the unicode branch yields a well-formed unicode event |
| Input.ToggleVariant | wayk_proto/src/message/now_messages/input.rs:219 | subtype 5 decodes a well-formed toggle event |
| Input.ActionVariant | wayk_proto/src/message/now_messages/input.rs:220 | subtype 6 decodes a well-formed action event |
| Input.Decode | wayk_proto/src/message/now_messages/input.rs:212-223 | every decoded event is well formed; a subtype byte outside 1 to 6 gives the custom variant holding the whole buffer with nothing consumed |
| Input.FirstByte | wayk_proto/src/message/now_messages/input.rs:212-223 | the subtype read is the first byte |
| Input.MouseReadsBack | wayk_proto/src/message/now_messages/input.rs:215 | a well-formed mouse event reads back as the mouse variant |
| Input.ScrollReadsBack | wayk_proto/src/message/now_messages/input.rs:216 | a well-formed scroll event reads back as the scroll variant |
| Input.KeyboardReadsBack | wayk_proto/src/message/now_messages/input.rs:217 | a well-formed keyboard event reads back as the keyboard variant |
| Input.UnicodeReadsBack | wayk_proto/src/message/now_messages/input.rs:218 | a well-formed unicode event reads back as the unicode variant |
| Input.ToggleReadsBack | wayk_proto/src/message/now_messages/input.rs:219 | a well-formed toggle event reads back as the toggle variant |
| Input.ActionReadsBack | wayk_proto/src/message/now_messages/input.rs:220 | a well-formed action event reads back as the action variant |
| Input.RoundTrip | wayk_proto/src/message/now_messages/input.rs:212-223 | every well-formed event reads back; a custom one returns its payload as the unread rest |
| Input.NewWithEvents | wayk_proto/src/message/now_messages/input.rs:230-235 | a message of the events given, in order |
| Input.EncodeMsg | wayk_proto/src/message/now_messages/input.rs:225-228 | a message encodes exactly when it has fewer than 65536 events, each encodable |
| Input.DecodeMsg | wayk_proto/src/message/now_messages/input.rs:225-228 | a decoded message has as many well-formed events as its two-byte count says |
| Input.EventsInverse | wayk_proto/src/message/now_messages/input.rs:212-223 | the event codec undoes itself on every list of events that read back |
| Input.MsgRoundTrip | wayk_proto/src/message/now_messages/input.rs:225-235 | a message of fewer than 65536 such events reads back |
| Input.UnlistedEventRepeats | wayk_proto/src/message/now_messages/input.rs:212-228 | a custom event consumes nothing, so a count of two over one custom payload reads that payload twice |
| Input.EventVector | wayk_proto/src/message/now_messages/input.rs:258-375 | an event whose encoding is given decodes back from exactly those bytes |
| Input.ToggleVector | wayk_proto/src/message/now_messages/input.rs:291-312 | the test toggle event (num lock) encodes to the test bytes and decodes back |
| Input.KeyboardVector | wayk_proto/src/message/now_messages/input.rs:313-334 | the test keyboard event encodes to the test bytes and decodes back |
| Input.ScrollVector | wayk_proto/src/message/now_messages/input.rs:335-355 | the test scroll event encodes to the test bytes and decodes back |
| Input.UnicodeVector | wayk_proto/src/message/now_messages/input.rs:356-375 | the test unicode event encodes to the test bytes and decodes back |
| Input.MouseVectors | wayk_proto/src/message/now_messages/input.rs:258-290 | the two test mouse events encode to their test bytes and decode back |
| Input.MouseItems | wayk_proto/src/message/now_messages/input.rs:258-277 | the two mouse events are written one after the other |
| Input.MouseMsgVector | wayk_proto/src/message/now_messages/input.rs:258-290 | the test input message of two mouse events encodes as count two followed by the two events |
| UnicodeEvent.CodeFlags | wayk_proto/src/message/now_messages/input.rs:120 | the flags byte is the code length less one shifted into the top two bits, in `u8` arithmetic; a length that is a multiple of 256 underflows and panics |
| UnicodeEvent.CodeSize | wayk_proto/src/message/now_messages/input.rs:134 | the decoder reads one to four code bytes from the flags' top two bits |
| UnicodeEvent.ShortCodesAnnounceTheirLength | wayk_proto/src/message/now_messages/input.rs:118-134 | a code of one to four bytes announces its own length |
| UnicodeEvent.OtherLengthsMisannounce | wayk_proto/src/message/now_messages/input.rs:118-134 | an empty code panics and a five-byte code announces one byte |
| UnicodeEvent.Encode | wayk_proto/src/message/now_messages/input.rs:118-124 | the subtype, the flags byte and the code; fails exactly when the length is a multiple of 256 |
| UnicodeEvent.DecodeAsWritten | wayk_proto/src/message/now_messages/input.rs:128-152 | as written: the code is taken but the cursor only moves past subtype and flags, so the code is left unread |
| UnicodeEvent.Decode | wayk_proto/src/message/now_messages/input.rs:128-152 | corrected: the code of the announced length is read and consumed, whatever follows it |
| UnicodeEvent.AsWrittenDependsOnPosition | wayk_proto/src/message/now_messages/input.rs:136-146 | as written, the size check compares a length measured from the start of the event with one measured from the start of the buffer: it passes only when the buffer's length is tied to the event's position |
| UnicodeEvent.DecodersAgreeOnCode | wayk_proto/src/message/now_messages/input.rs:128-152 | when the decoder as written succeeds, the corrected one reads the same code |
| UnicodeEvent.RoundTrip | wayk_proto/src/message/now_messages/input.rs:118-152 | a code of one to four bytes reads back under the corrected decoder, leaving what follows |
| UnicodeEvent.Vectors | wayk_proto/src/message/now_messages/input.rs:255-375 | the test unicode event encodes to its bytes; as written it decodes at position 0 leaving the code unread and is refused one byte later, where the corrected decoder still reads it |
| Clipboard.MessageTypeFromByte | wayk_proto/src/message/virtual_channels/clipboard.rs:9-24 | bytes 1 to 12 are the subtypes and no other byte |
| Clipboard.MessageTypeTable | wayk_proto/src/message/virtual_channels/clipboard.rs:9-24 | a byte names a subtype exactly when it is that subtype's byte |
| Clipboard.MessageTypeInjective | wayk_proto/src/message/virtual_channels/clipboard.rs:9-24 | no two subtypes share a byte |
| Clipboard.ControlStateFromWord | wayk_proto/src/message/virtual_channels/clipboard.rs:26-32 | words 0 to 2 are the control states and no other word |
| Clipboard.ControlStateTable | wayk_proto/src/message/virtual_channels/clipboard.rs:26-32 | a word names a state exactly when it is that state's word |
| Clipboard.DecodeMessageType | wayk_proto/src/message/virtual_channels/clipboard.rs:9-24 | a subtype reads exactly when a byte from 1 to 12 is present, and writes back to it |
| Clipboard.MessageTypeRoundTrip | wayk_proto/src/message/virtual_channels/clipboard.rs:9-24 | every subtype reads back |
| Clipboard.DecodeControlState | wayk_proto/src/message/virtual_channels/clipboard.rs:26-32 | a state reads exactly when a word of at most 2 is present, and writes back to it |
| Clipboard.ControlStateRoundTrip | wayk_proto/src/message/virtual_channels/clipboard.rs:26-32 | every control state reads back |
| Clipboard.FailedIsTopBit | wayk_proto/src/message/virtual_channels/clipboard.rs:34-38 | `failure` holds exactly when the top bit of the response flags is set |
| Clipboard.NewWordMsg | wayk_proto/src/message/virtual_channels/clipboard.rs:159-334 | a capabilities, suspend or resume message of the subtype and flags given, with a zero word |
| Clipboard.NewControlReq | wayk_proto/src/message/virtual_channels/clipboard.rs:212-218 | a control request of the state given, flags zero |
| Clipboard.NewControlRsp | wayk_proto/src/message/virtual_channels/clipboard.rs:231-241 | a control response of the state and flags given |
| Clipboard.NewFormatListReq | wayk_proto/src/message/virtual_channels/clipboard.rs:347-358 | a format list request of the sequence id and formats given, flags zero |
| Clipboard.NewFormatListRsp | wayk_proto/src/message/virtual_channels/clipboard.rs:371-381 | a format list response of the sequence id and flags given |
| Clipboard.NewFormatDataReq | wayk_proto/src/message/virtual_channels/clipboard.rs:395-402 | a format data request of the sequence id and format given, flags zero |
| Clipboard.NewFormatDataRsp | wayk_proto/src/message/virtual_channels/clipboard.rs:417-430 | a format data response of the sequence id, format and flags given, with no data |
| Clipboard.NewFormatDataRspWithData | wayk_proto/src/message/virtual_channels/clipboard.rs:431-439 | a format data response carrying the data given, flags zero |
| Clipboard.FlagsField | wayk_proto/src/message/virtual_channels/clipboard.rs:152-157 | the flags byte reads exactly when a byte remains |
| Clipboard.FlagsFieldRoundTrip | wayk_proto/src/message/virtual_channels/clipboard.rs:152-157 | a flags byte reads back |
| Clipboard.SubtypeField | wayk_proto/src/message/virtual_channels/clipboard.rs:152-157 | the subtype field reads exactly when a byte from 1 to 12 is present |
| Clipboard.EncodeWord | wayk_proto/src/message/virtual_channels/clipboard.rs:152-157 | a capabilities, suspend, resume or format list response is four bytes starting with its subtype |
| Clipboard.DecodeHead | wayk_proto/src/message/virtual_channels/clipboard.rs:152-157 | reads exactly when four bytes remain and the first is a subtype |
| Clipboard.SubtypeFieldRoundTrip | wayk_proto/src/message/virtual_channels/clipboard.rs:152-157 | every subtype reads back through the field |
| Clipboard.HeadRoundTrip | wayk_proto/src/message/virtual_channels/clipboard.rs:152-157 | every four-byte message reads back |
| Clipboard.DecodeWord | wayk_proto/src/message/virtual_channels/clipboard.rs:152-366 | a four-byte message reads exactly when four bytes remain and the first is a subtype |
| Clipboard.EncodeControl | wayk_proto/src/message/virtual_channels/clipboard.rs:202-226 | a control message is four bytes starting with its subtype |
| Clipboard.DecodeControl | wayk_proto/src/message/virtual_channels/clipboard.rs:202-226 | a decoded control message consumed four bytes and keeps its subtype byte |
| Clipboard.ControlStateFieldRoundTrip | wayk_proto/src/message/virtual_channels/clipboard.rs:202-226 | the control state field reads back |
| Clipboard.ControlRoundTrip | wayk_proto/src/message/virtual_channels/clipboard.rs:202-226 | every control message reads back |
| Clipboard.EncodeFormatDef | wayk_proto/src/message/virtual_channels/clipboard.rs:40-44 | a format definition encodes exactly when its name is a valid `NowString256` |
| Clipboard.DecodeFormatDef | wayk_proto/src/message/virtual_channels/clipboard.rs:40-44 | a decoded format definition has a valid name |
| Clipboard.FormatDefRoundTrip | wayk_proto/src/message/virtual_channels/clipboard.rs:40-44 | every valid format definition reads back |
| Clipboard.FormatDefInverse | wayk_proto/src/message/virtual_channels/clipboard.rs:40-44 | the format definition codec undoes itself on every list |
| Clipboard.EncodeFormatList | wayk_proto/src/message/virtual_channels/clipboard.rs:336-342 | a format list request encodes exactly when it has fewer than 256 valid formats |
| Clipboard.DecodeFormatList | wayk_proto/src/message/virtual_channels/clipboard.rs:336-342 | a decoded format list request consumed at least five bytes and keeps its subtype byte |
| Clipboard.DecodedFormatsValid | wayk_proto/src/message/virtual_channels/clipboard.rs:336-342 | every format a decoded list holds is valid |
| Clipboard.FormatListRoundTrip | wayk_proto/src/message/virtual_channels/clipboard.rs:336-342 | every encodable format list request reads back |
| Clipboard.EncodeDataReq | wayk_proto/src/message/virtual_channels/clipboard.rs:384-390 | a format data request is eight bytes starting with its subtype |
| Clipboard.DecodeDataReq | wayk_proto/src/message/virtual_channels/clipboard.rs:384-390 | a decoded format data request consumed eight bytes |
| Clipboard.DataReqRoundTrip | wayk_proto/src/message/virtual_channels/clipboard.rs:384-390 | every format data request reads back |
| Clipboard.DataRspHead | wayk_proto/src/message/virtual_channels/clipboard.rs:405-412 | the head of a format data response is eight bytes starting with its subtype |
| Clipboard.EncodeDataRsp | wayk_proto/src/message/virtual_channels/clipboard.rs:405-412 | a format data response encodes exactly when its data fits a `u32` length: twelve bytes then the data |
| Clipboard.EncodeDataRspOwned | wayk_proto/src/message/virtual_channels/clipboard.rs:442-449 | the owned format data response encodes exactly when its data fits a `u32` length: twelve bytes then the data, starting with its subtype byte |
| Clipboard.OwnedSameWire | wayk_proto/src/message/virtual_channels/clipboard.rs:442-449 | the owned data response has the same wire form as the borrowed one |
| Clipboard.DecodeDataRsp | wayk_proto/src/message/virtual_channels/clipboard.rs:405-412 | corrected: a decoded format data response consumed its twelve head bytes and its data |
| Clipboard.DataRspRoundTrip | wayk_proto/src/message/virtual_channels/clipboard.rs:405-412 | corrected: every encodable format data response reads back |
| Clipboard.WordVariant | wayk_proto/src/message/virtual_channels/clipboard.rs:52-70 | the variant of a four-byte message carries its subtype |
| Clipboard.EncodeFails | wayk_proto/src/message/virtual_channels/clipboard.rs:52-70 | a message fails to encode exactly when its format list or its data is too long |
| Clipboard.Encode | wayk_proto/src/message/virtual_channels/clipboard.rs:52-70 | an encoding is at least four bytes and starts with the subtype byte of the variant's struct; only a format list or a format data response can fail, with a `NowClipboardMsg` encoding error |
| Clipboard.DecodeWordVariant | wayk_proto/src/message/virtual_channels/clipboard.rs:52-70 | a four-byte subtype decodes a well-formed message of that subtype |
| Clipboard.DecodeControlVariant | wayk_proto/src/message/virtual_channels/clipboard.rs:55-58 | a control subtype decodes a well-formed control message |
| Clipboard.ListVariant | wayk_proto/src/message/virtual_channels/clipboard.rs:63 | a format list request is a well-formed message that is not the owned response |
| Clipboard.DecodeListVariant | wayk_proto/src/message/virtual_channels/clipboard.rs:63 | the format list subtype decodes a well-formed format list request |
| Clipboard.DecodeDataReqVariant | wayk_proto/src/message/virtual_channels/clipboard.rs:65 | the data request subtype decodes a well-formed data request |
| Clipboard.DecodeDataRspVariant | wayk_proto/src/message/virtual_channels/clipboard.rs:66 | the data response subtype decodes a well-formed borrowed response |
| Clipboard.DecodeWordWellFormed | wayk_proto/src/message/virtual_channels/clipboard.rs:52-70 | a decoded four-byte message is well formed and not the owned response |
| Clipboard.DecodeOtherWellFormed | wayk_proto/src/message/virtual_channels/clipboard.rs:52-70 | a decoded message of the other subtypes is well formed and not the owned response |
| Clipboard.DecodeWellFormed | wayk_proto/src/message/virtual_channels/clipboard.rs:52-70 | every decoded message starts with a subtype from 1 to 12, is well formed and is never the owned response (decoding ignores that variant) |
| Clipboard.Decode | wayk_proto/src/message/virtual_channels/clipboard.rs:52-70 | a decoded message started with a subtype byte from 1 to 12, is well formed, and is never the owned data response |
| Clipboard.SubtypeSelects | wayk_proto/src/message/virtual_channels/clipboard.rs:52-70 | the subtype read from an encoding is its first byte's subtype |
| Clipboard.WordVariantRoundTrip | wayk_proto/src/message/virtual_channels/clipboard.rs:52-70 | a four-byte message reads back as its variant |
| Clipboard.ControlVariantRoundTrip | wayk_proto/src/message/virtual_channels/clipboard.rs:55-58 | a well-formed control message reads back |
| Clipboard.ListVariantRoundTrip | wayk_proto/src/message/virtual_channels/clipboard.rs:63 | an encodable format list request reads back as its variant |
| Clipboard.DataReqVariantRoundTrip | wayk_proto/src/message/virtual_channels/clipboard.rs:65 | a data request reads back as its variant |
| Clipboard.DataRspVariantRoundTrip | wayk_proto/src/message/virtual_channels/clipboard.rs:66 | an encodable data response reads back as its variant |
| Clipboard.WordMessageRoundTrip | wayk_proto/src/message/virtual_channels/clipboard.rs:52-70 | every well-formed four-byte message reads back |
| Clipboard.OtherMessageRoundTrip | wayk_proto/src/message/virtual_channels/clipboard.rs:52-70 | every other well-formed encodable message reads back as it decodes (an owned response as a borrowed one) |
| Clipboard.RoundTrip | wayk_proto/src/message/virtual_channels/clipboard.rs:52-70 | every well-formed encodable clipboard message reads back (an owned response as a borrowed one) |
| Clipboard.UnknownSubtypeRefused | wayk_proto/src/message/virtual_channels/clipboard.rs:9-24 | a subtype byte of 0 or above 12 is refused: "couldn't decode subtype" over the subtype enum's decoding error |
| Clipboard.CapabilitiesReqVector | wayk_proto/src/message/virtual_channels/clipboard.rs:496-537 | the test capabilities request encodes to the test bytes and decodes back |
| Clipboard.ControlRspVector | wayk_proto/src/message/virtual_channels/clipboard.rs:538-552 | the test control response (state auto) encodes to the test bytes and decodes back |
| Chat.MessageTypeFromByte | wayk_proto/src/message/virtual_channels/chat.rs:6-16 | bytes 0 to 6 are the chat subtypes and no other byte |
| Chat.MessageTypeTable | wayk_proto/src/message/virtual_channels/chat.rs:6-16 | a byte names a subtype exactly when it is that subtype's byte |
| Chat.MessageTypeInjective | wayk_proto/src/message/virtual_channels/chat.rs:6-16 | no two subtypes share a byte |
| Chat.PresenceFromByte | wayk_proto/src/message/virtual_channels/chat.rs:74-85 | bytes 0 to 7 are the presence states and no other byte |
| Chat.PresenceTable | wayk_proto/src/message/virtual_channels/chat.rs:74-85 | a byte names a presence exactly when it is that presence's byte |
| Chat.DecodeMessageType | wayk_proto/src/message/virtual_channels/chat.rs:6-16 | a subtype reads exactly when a byte of at most 6 is present, and writes back to it |
| Chat.MessageTypeRoundTrip | wayk_proto/src/message/virtual_channels/chat.rs:6-16 | every subtype reads back |
| Chat.DecodePresence | wayk_proto/src/message/virtual_channels/chat.rs:74-85 | a presence reads exactly when a byte of at most 7 is present, and writes back to it |
| Chat.PresenceRoundTrip | wayk_proto/src/message/virtual_channels/chat.rs:74-85 | every presence reads back |
| Chat.NewSync | wayk_proto/src/message/virtual_channels/chat.rs:111-131 | a sync of the timestamp, capabilities and name given, flags and reserved zero, presence unknown, empty status text; `presence` and `status_text` replace one field and keep the rest |
| Chat.WithPresence | wayk_proto/src/message/virtual_channels/chat.rs:124-127 | only the presence changes |
| Chat.WithStatusText | wayk_proto/src/message/virtual_channels/chat.rs:128-131 | only the status text changes |
| Chat.NewText | wayk_proto/src/message/virtual_channels/chat.rs:154-168 | a text message of the timestamp, id, text and flags given, session id and reserved zero |
| Chat.NewTyping | wayk_proto/src/message/virtual_channels/chat.rs:212-221 | a typing message of the timestamp and id given, flags, reserved and session id zero |
| Chat.NewHead | wayk_proto/src/message/virtual_channels/chat.rs:182-190 | a read, name, status or poke message: its subtype and timestamp, flags and reserved zero |
| Chat.EncodeHead | wayk_proto/src/message/virtual_channels/chat.rs:172-177 | the eight-byte common head starts with the subtype byte |
| Chat.FlagsField | wayk_proto/src/message/virtual_channels/chat.rs:142 | the flags byte reads exactly when a byte remains |
| Chat.FlagsFieldRoundTrip | wayk_proto/src/message/virtual_channels/chat.rs:142 | a flags byte reads back |
| Chat.DecodeHead | wayk_proto/src/message/virtual_channels/chat.rs:172-177 | the head reads exactly when eight bytes remain and the first is a subtype |
| Chat.HeadRoundTrip | wayk_proto/src/message/virtual_channels/chat.rs:172-177 | every head reads back |
| Chat.EncodeTyping | wayk_proto/src/message/virtual_channels/chat.rs:199-207 | a typing message is sixteen bytes starting with its subtype |
| Chat.DecodeTyping | wayk_proto/src/message/virtual_channels/chat.rs:199-207 | a typing message reads exactly when sixteen bytes remain and the first is a subtype |
| Chat.TypingRoundTrip | wayk_proto/src/message/virtual_channels/chat.rs:199-207 | every typing message reads back |
| Chat.EncodeText | wayk_proto/src/message/virtual_channels/chat.rs:140-149 | a text message with a valid text is nineteen bytes plus its text, starting with its subtype |
| Chat.DecodeText | wayk_proto/src/message/virtual_channels/chat.rs:140-149 | a decoded text message consumed more than sixteen bytes and holds a valid text |
| Chat.TextRoundTrip | wayk_proto/src/message/virtual_channels/chat.rs:140-149 | every text message with a valid text reads back |
| Chat.EncodeSync | wayk_proto/src/message/virtual_channels/chat.rs:96-106 | a sync with valid strings is nineteen bytes plus both strings, starting with its subtype |
| Chat.DecodeSyncBody | wayk_proto/src/message/virtual_channels/chat.rs:101-105 | the body after the head decodes to a sync carrying that head and valid strings |
| Chat.DecodeSync | wayk_proto/src/message/virtual_channels/chat.rs:96-106 | a decoded sync consumed at least its head and holds valid strings |
| Chat.SyncBodyRoundTrip | wayk_proto/src/message/virtual_channels/chat.rs:101-105 | every sync body with valid strings reads back |
| Chat.SyncRoundTrip | wayk_proto/src/message/virtual_channels/chat.rs:96-106 | every sync with valid strings reads back |
| Chat.HeadVariant | wayk_proto/src/message/virtual_channels/chat.rs:20-27 | a read, name, status or poke head makes a well-formed message |
| Chat.DecodeHeadVariant | wayk_proto/src/message/virtual_channels/chat.rs:20-27 | a read, name, status or poke subtype decodes a well-formed message of that subtype |
| Chat.TypingVariant | wayk_proto/src/message/virtual_channels/chat.rs:23 | a typing message makes a well-formed message |
| Chat.DecodeTypingVariant | wayk_proto/src/message/virtual_channels/chat.rs:23 | the typing subtype decodes a well-formed message |
| Chat.TextVariant | wayk_proto/src/message/virtual_channels/chat.rs:22 | a text message with valid text makes a well-formed message |
| Chat.DecodeTextVariant | wayk_proto/src/message/virtual_channels/chat.rs:22 | the text subtype decodes a well-formed message |
| Chat.SyncVariant | wayk_proto/src/message/virtual_channels/chat.rs:21 | a sync with valid strings makes a well-formed message |
| Chat.DecodeSyncVariant | wayk_proto/src/message/virtual_channels/chat.rs:21 | the sync subtype decodes a well-formed message |
| Chat.DecodeHeadWellFormed | wayk_proto/src/message/virtual_channels/chat.rs:18-28 | a decoded read, name, status or poke message is well formed |
| Chat.DecodeOtherWellFormed | wayk_proto/src/message/virtual_channels/chat.rs:18-28 | a decoded sync, text or typing message is well formed |
| Chat.DecodeWellFormed | wayk_proto/src/message/virtual_channels/chat.rs:18-28 | every decoded chat message starts with a subtype of at most 6 and is well formed |
| Chat.Encode | wayk_proto/src/message/virtual_channels/chat.rs:18-28 | at least the eight-byte head, starting with the subtype byte of the message's head |
| Chat.Decode | wayk_proto/src/message/virtual_channels/chat.rs:18-28 | a decoded message started with a subtype byte of at most 6 and is well formed |
| Chat.SubtypeSelects | wayk_proto/src/message/virtual_channels/chat.rs:18-28 | the subtype read from an encoding is its first byte's subtype |
| Chat.HeadVariantRoundTrip | wayk_proto/src/message/virtual_channels/chat.rs:20-27 | a read, name, status or poke head reads back as its variant |
| Chat.HeadMessageRoundTrip | wayk_proto/src/message/virtual_channels/chat.rs:20-27 | every well-formed read, name, status or poke message reads back |
| Chat.TypingVariantRoundTrip | wayk_proto/src/message/virtual_channels/chat.rs:23 | a typing message reads back as its variant |
| Chat.TextVariantRoundTrip | wayk_proto/src/message/virtual_channels/chat.rs:22 | a text message with valid text reads back as its variant |
| Chat.SyncVariantRoundTrip | wayk_proto/src/message/virtual_channels/chat.rs:21 | a sync with valid strings reads back as its variant |
| Chat.RoundTrip | wayk_proto/src/message/virtual_channels/chat.rs:18-28 | every well-formed chat message reads back |
| Chat.UnknownSubtypeRefused | wayk_proto/src/message/virtual_channels/chat.rs:6-16 | a subtype byte above 6 is refused: "couldn't decode subtype" over the subtype enum's decoding error |
| Chat.SyncVector | wayk_proto/src/message/virtual_channels/chat.rs:303-366 | the test's sync (emoji and read notifications) encodes to the test's chat bytes and decodes back |
| Chat.TextVector | wayk_proto/src/message/virtual_channels/chat.rs:368-398 | the test's text message encodes to the test's bytes and decodes back, for any 27 valid text bytes |
| Chat.JapaneseTextVector | wayk_proto/src/message/virtual_channels/chat.rs:368-398 | the test's Japanese text bytes decode to the text message built from them |
| Pfp.MessageTypeFromU16 | wayk_proto/src/auth/pfp.rs:6-16 | values 1 to 3 are the named subtypes; any other value falls back to `Other` keeping it |
| Pfp.MessageTypeTable | wayk_proto/src/auth/pfp.rs:6-16 | every `u16` reads to a canonical subtype and writes back to itself; every canonical subtype reads back |
| Pfp.FlagsFromU16 | wayk_proto/src/auth/pfp.rs:18-26 | values 0 and 1 are the named flags; any other value falls back to `Other` keeping it |
| Pfp.FlagsTable | wayk_proto/src/auth/pfp.rs:18-26 | every `u16` reads to canonical flags and writes back to itself; every canonical flags value reads back |
| Pfp.NewNegotiate | wayk_proto/src/auth/pfp.rs:60-67 | the negotiate subtype with the question flag, carrying the name and text |
| Pfp.NewChallengeWithoutQuestion | wayk_proto/src/auth/pfp.rs:80-86 | the challenge subtype with no-challenge flags and an empty question |
| Pfp.NewChallengeWithQuestion | wayk_proto/src/auth/pfp.rs:88-94 | the challenge subtype with the question flag, carrying the question |
| Pfp.NewResponse | wayk_proto/src/auth/pfp.rs:107-113 | the response subtype with the question flag, carrying the answer |
| Pfp.SubtypeField | wayk_proto/src/auth/pfp.rs:51 | the subtype reads exactly when two bytes remain, canonical and equal to their little-endian value |
| Pfp.SubtypeFieldRoundTrip | wayk_proto/src/auth/pfp.rs:51 | every canonical subtype reads back |
| Pfp.FlagsField | wayk_proto/src/auth/pfp.rs:52 | the flags read exactly when two bytes remain, canonical |
| Pfp.FlagsFieldRoundTrip | wayk_proto/src/auth/pfp.rs:52 | every canonical flags value reads back |
| Pfp.EncodeHead | wayk_proto/src/auth/pfp.rs:51-52 | subtype and flags take four bytes |
| Pfp.DecodeHead | wayk_proto/src/auth/pfp.rs:51-52 | the head reads exactly when four bytes remain, to canonical values |
| Pfp.HeadRoundTrip | wayk_proto/src/auth/pfp.rs:51-52 | every canonical head reads back |
| Pfp.EncodeNegotiate | wayk_proto/src/auth/pfp.rs:50-55 | a negotiate token with valid strings is eight bytes plus name and text |
| Pfp.DecodeNegotiate | wayk_proto/src/auth/pfp.rs:50-55 | a decoded negotiate token has a canonical head read from its first four bytes and valid strings |
| Pfp.NegotiateRoundTrip | wayk_proto/src/auth/pfp.rs:50-55 | every canonical negotiate token with valid strings reads back |
| Pfp.EncodeChallenge | wayk_proto/src/auth/pfp.rs:71-75 | a challenge with a valid question is six bytes plus the question |
| Pfp.DecodeChallenge | wayk_proto/src/auth/pfp.rs:71-75 | a decoded challenge has a canonical head read from its first four bytes and a valid question |
| Pfp.ChallengeRoundTrip | wayk_proto/src/auth/pfp.rs:71-75 | every canonical challenge with a valid question reads back |
| Pfp.EncodeResponse | wayk_proto/src/auth/pfp.rs:98-102 | a response with a valid answer is six bytes plus the answer |
| Pfp.DecodeResponse | wayk_proto/src/auth/pfp.rs:98-102 | a decoded response has a canonical head read from its first four bytes and a valid answer |
| Pfp.ResponseRoundTrip | wayk_proto/src/auth/pfp.rs:98-102 | every canonical response with a valid answer reads back |
| Pfp.Encode | wayk_proto/src/auth/pfp.rs:28-34 | a well-formed token starts with the `u16` of its variant's subtype |
| Pfp.NegotiateVariant | wayk_proto/src/auth/pfp.rs:31 | subtype 1 decodes a well-formed negotiate token |
| Pfp.ChallengeVariant | wayk_proto/src/auth/pfp.rs:32 | subtype 2 decodes a well-formed challenge token |
| Pfp.ResponseVariant | wayk_proto/src/auth/pfp.rs:33 | subtype 3 decodes a well-formed response token |
| Pfp.Decode | wayk_proto/src/auth/pfp.rs:28-34 | a decoded token's leading `u16` is 1 to 3 and names its variant, and the token is well formed; any other leading value is refused |
| Pfp.RoundTrip | wayk_proto/src/auth/pfp.rs:28-34 | every well-formed token reads back |
| Pfp.NewOwnedNegotiateToken | wayk_proto/src/auth/pfp.rs:37-46 | corrected: succeeds exactly when the name fits 64 bytes and the text 255 (a 256-byte text is refused where the source panics); the result is an owned PFP authenticate token whose data decodes to the negotiate token of that name and text |
| Pfp.ReadsBack | wayk_proto/src/auth/pfp.rs:28-34 | every well-formed token decodes from its encoding alone with nothing left |
| Pfp.NegotiateVector | wayk_proto/src/auth/pfp.rs:122-153 | the test's negotiate token ("Johnny Doe", "It's me.") encodes to the test bytes and decodes back |
| Pfp.ChallengeVectors | wayk_proto/src/auth/pfp.rs:155-205 | the test's challenge with and without a question encode to the test bytes and decode back |
| Pfp.ResponseVector | wayk_proto/src/auth/pfp.rs:207-232 | the test's response encodes to the test bytes and decodes back |
| Gfwx.FilterFromByte | wayk_core/src/gfwx.rs:21-26 | bytes 0 and 1 are the filters and no other byte |
| Gfwx.FilterTable | wayk_core/src/gfwx.rs:21-26 | a byte names a filter exactly when it is that filter's byte |
| Gfwx.QuantizationFromByte | wayk_core/src/gfwx.rs:28-32 | byte 0 is the only quantization |
| Gfwx.QuantizationTable | wayk_core/src/gfwx.rs:28-32 | a byte names a quantization exactly when it is that quantization's byte |
| Gfwx.EncoderFromByte | wayk_core/src/gfwx.rs:34-40 | bytes 0 to 2 are the encoders and no other byte |
| Gfwx.EncoderTable | wayk_core/src/gfwx.rs:34-40 | a byte names an encoder exactly when it is that encoder's byte |
| Gfwx.EncodeIdent | wayk_core/src/gfwx.rs:45-48 | magic, version, offset and flags take eight bytes |
| Gfwx.EncodeSettings | wayk_core/src/gfwx.rs:50-56 | quality, chroma, block size, the three tables and boost take eight bytes |
| Gfwx.EncodeGeometry | wayk_core/src/gfwx.rs:58-61 | width, height and the two counts take twelve bytes |
| Gfwx.EncodeTail | wayk_core/src/gfwx.rs:63-64 | transform and colour flags take eight bytes |
| Gfwx.Encode | wayk_core/src/gfwx.rs:42-65 | the header is always 36 bytes |
| Gfwx.DecodeIdent | wayk_core/src/gfwx.rs:45-48 | the first group reads exactly when eight bytes remain |
| Gfwx.DecodeSettings | wayk_core/src/gfwx.rs:50-56 | a decoded settings group consumed eight bytes |
| Gfwx.DecodeGeometry | wayk_core/src/gfwx.rs:58-61 | the geometry reads exactly when twelve bytes remain |
| Gfwx.DecodeTail | wayk_core/src/gfwx.rs:63-64 | the tail reads exactly when eight bytes remain |
| Gfwx.Decode | wayk_core/src/gfwx.rs:42-65 | a decoded header consumed 36 bytes; fewer than 36 bytes are refused |
| Gfwx.IdentRoundTrip | wayk_core/src/gfwx.rs:45-48 | the first group reads back |
| Gfwx.EnumsRoundTrip | wayk_core/src/gfwx.rs:53-55 | filter, quantization and encoder read back |
| Gfwx.SettingsRoundTrip | wayk_core/src/gfwx.rs:50-56 | the settings group reads back |
| Gfwx.GeometryRoundTrip | wayk_core/src/gfwx.rs:58-61 | the geometry reads back |
| Gfwx.TailRoundTrip | wayk_core/src/gfwx.rs:63-64 | the tail reads back |
| Gfwx.RoundTrip | wayk_core/src/gfwx.rs:42-65 | every header reads back, leaving what follows |
| Gfwx.UnlistedEncoderRefused | wayk_core/src/gfwx.rs:34-40 | a header whose encoder byte is above 2 is refused |
| Gfwx.ConversionsKeepNames | wayk_core/src/gfwx.rs:67-92 | the filter and encoder conversions keep each variant's name and are one-to-one and onto |
| Gfwx.ToCodecHeader | wayk_core/src/gfwx.rs:94-119 | the codec header takes dimensions, quality, chroma and block size from the header and the rest from the parameters; the channel size fits 64 bits and the image size is channel size times layers times channels of the parameters |
| Gfwx.HeaderCountsIgnored | wayk_core/src/gfwx.rs:94-119 | the header's own layer and channel counts, magic and transform do not affect the codec header |
| Gfwx.CodecTablesFromHeader | wayk_core/src/gfwx.rs:94-119 | the codec header's filter and encoder are the header's |
| Gfwx.ToCodecFilter | wayk_core/src/gfwx.rs:67-74 | each filter becomes the codec filter of the same name |
| Gfwx.ToCodecQuantization | wayk_core/src/gfwx.rs:76-82 | the one quantization becomes the codec's scalar quantization |
| Gfwx.ToCodecEncoder | wayk_core/src/gfwx.rs:84-92 | each encoder becomes the codec encoder of the same name |
| Gfwx.HeaderVector | wayk_core/src/gfwx.rs:126-205 | the test header encodes to the test's 36 bytes and decodes back |
| Gfwx.CodecHeaderVector | wayk_core/src/gfwx.rs:161-229 | the test conversion gives 11680 per channel and 35040 for the image, linear filter, fast encoder, version 1, quality 64 |
| SubSm.HandshakeWithout | wayk_proto/src/sm/client_connection/sub_sm.rs:78-88 | only the initial state moves, to ready, sending the default handshake; every update reports a state change by one final transition event and otherwise pushes one problem event |
| SubSm.UnexpectedMsg | wayk_proto/src/sm/client_connection/sub_sm.rs:22-33 | a warning whose kind is an unexpected message of the type `get_type` reports: the message's own type, but Sharing for an access message |
| SubSm.HandshakeWith | wayk_proto/src/sm/client_connection/sub_sm.rs:90-122 | only a success handshake in ready ends the machine; failure and incompatible codes are fatal, other codes an error, another message a warning, any other state an unexpected call; the warning about a message it does not expect names the type `get_type` reports, Sharing for an access message |
| SubSm.AccessWarnedAsSharing | wayk_proto/src/sm/client_connection/sub_sm.rs:22-33 | as written, an access message arriving at a ready handshake machine is warned about as a Sharing message, which is not its type |
| SubSm.HandshakeSM.constructor | wayk_proto/src/sm/client_connection/sub_sm.rs:62-66 | a new machine starts initial |
| SubSm.HandshakeSM.UpdateWithoutMessage | wayk_proto/src/sm/client_connection/sub_sm.rs:78-88 | the state and the events appended are those of `HandshakeWithout` |
| SubSm.HandshakeSM.UpdateWithMessage | wayk_proto/src/sm/client_connection/sub_sm.rs:90-122 | the state and the events appended are those of `HandshakeWith` |
| SubSm.CommonAuths | wayk_proto/src/sm/client_connection/sub_sm.rs:179-184 | holds exactly the server's methods this side supports, in the server's order; all of them when all are supported |
| SubSm.NegotiateWithout | wayk_proto/src/sm/client_connection/sub_sm.rs:151-167 | only the initial state moves, to ready, offering the supported methods with the SRP-extended flag |
| SubSm.NegotiateWith | wayk_proto/src/sm/client_connection/sub_sm.rs:169-195 | only a negotiate message in ready ends the machine, handing over the methods both sides support; the warning about a message it does not expect names the type `get_type` reports, Sharing for an access message |
| SubSm.NegotiateSM.constructor | wayk_proto/src/sm/client_connection/sub_sm.rs:135-139 | a new machine starts initial |
| SubSm.NegotiateSM.UpdateWithoutMessage | wayk_proto/src/sm/client_connection/sub_sm.rs:151-167 | the state and the events appended are those of `NegotiateWithout` on the supported methods |
| SubSm.NegotiateSM.UpdateWithMessage | wayk_proto/src/sm/client_connection/sub_sm.rs:169-195 | the state and the events appended are those of `NegotiateWith` |
| SubSm.AssociateWithout | wayk_proto/src/sm/client_connection/sub_sm.rs:233-235 | never expected: the state stays and an unexpected call is reported |
| SubSm.AssociateWith | wayk_proto/src/sm/client_connection/sub_sm.rs:237-277 | the state never goes back; information moves to waiting for the response and sends the request exactly when no session is active; only a success response ends the machine, a failure is fatal; the warning about a message it does not expect names the type `get_type` reports, Sharing for an access message |
| SubSm.AssociateSM.constructor | wayk_proto/src/sm/client_connection/sub_sm.rs:217-221 | a new machine waits for the information |
| SubSm.AssociateSM.WaitingForPacket | wayk_proto/src/sm/client_connection/sub_sm.rs:229-231 | waiting exactly while not ended |
| SubSm.AssociateSM.UpdateWithoutMessage | wayk_proto/src/sm/client_connection/sub_sm.rs:233-235 | the state and the events appended are those of `AssociateWithout` |
| SubSm.AssociateSM.UpdateWithMessage | wayk_proto/src/sm/client_connection/sub_sm.rs:237-277 | the state and the events appended are those of `AssociateWith` |
| SubSm.CapabilitiesWithout | wayk_proto/src/sm/client_connection/sub_sm.rs:306-308 | never expected: the state stays and an unexpected call is reported |
| SubSm.CapabilitiesWith | wayk_proto/src/sm/client_connection/sub_sm.rs:310-339 | a capabilities message before the end ends the machine, answering with this side's capsets; otherwise a warning or an unexpected call; the warning about a message it does not expect names the type `get_type` reports, Sharing for an access message |
| SubSm.CapabilitiesSM.constructor | wayk_proto/src/sm/client_connection/sub_sm.rs:290-294 | a new machine starts ready |
| SubSm.CapabilitiesSM.UpdateWithoutMessage | wayk_proto/src/sm/client_connection/sub_sm.rs:306-308 | the state and the events appended are those of `CapabilitiesWithout` |
| SubSm.CapabilitiesSM.UpdateWithMessage | wayk_proto/src/sm/client_connection/sub_sm.rs:310-339 | the state and the events appended are those of `CapabilitiesWith` on this side's capsets |
| SubSm.UnavailableNames | wayk_proto/src/sm/client_connection/sub_sm.rs:423-428 | holds exactly the names of this side's channels that the server did not list |
| SubSm.Retain | wayk_proto/src/sm/client_connection/sub_sm.rs:435-436 | keeps exactly the defs whose name was not dropped, never growing |
| SubSm.KeepListed | wayk_proto/src/sm/client_connection/sub_sm.rs:413-440 | keeps exactly the defs the server lists |
| SubSm.RetainKeepsListed | wayk_proto/src/sm/client_connection/sub_sm.rs:430-437 | dropping the unlisted names keeps exactly the listed defs, in order |
| SubSm.KeepAllListed | wayk_proto/src/sm/client_connection/sub_sm.rs:430-437 | when every def is listed nothing is dropped |
| SubSm.ListResponseKeepsListed | wayk_proto/src/sm/client_connection/sub_sm.rs:423-437 | after a list response the defs are exactly the listed ones, in order; a warning is due exactly when one was dropped |
| SubSm.CollectUnavailable | wayk_proto/src/sm/client_connection/sub_sm.rs:423-428 | the loop gathers exactly the unlisted names, in order |
| SubSm.KeepAvailable | wayk_proto/src/sm/client_connection/sub_sm.rs:423-439 | the channel defs become the listed ones and nothing else in the shared data changes |
| SubSm.ChannelsWithout | wayk_proto/src/sm/client_connection/sub_sm.rs:378-401 | the two send states move one step on, sending the list and then the open request of this side's defs; other states report an unexpected call |
| SubSm.ChannelsWith | wayk_proto/src/sm/client_connection/sub_sm.rs:403-464 | a channel message in a wait state moves one step on; the list response keeps the listed defs, hands them over, and warns exactly when one was dropped; the open response takes the server's defs and sends the activate message; the warning about a message it does not expect names the type `get_type` reports, Sharing for an access message |
| SubSm.ChannelsSM.constructor | wayk_proto/src/sm/client_connection/sub_sm.rs:362-366 | a new machine starts by sending the list request |
| SubSm.ChannelsSM.WaitingForPacket | wayk_proto/src/sm/client_connection/sub_sm.rs:374-376 | waiting exactly in the two response states |
| SubSm.ChannelsSM.UpdateWithoutMessage | wayk_proto/src/sm/client_connection/sub_sm.rs:378-401 | the state and the events appended are those of `ChannelsWithout` |
| SubSm.ChannelsSM.UpdateWithMessage | wayk_proto/src/sm/client_connection/sub_sm.rs:403-464 | the state, the events appended and the new defs are those of `ChannelsWith` |
| Config.TrimStart | wayk_cli_client/src/config.rs:67 | drops exactly the leading whitespace: what is removed is whitespace and what remains is a suffix not starting with whitespace |
| Config.TrimEnd | wayk_cli_client/src/config.rs:67 | drops exactly the trailing whitespace: what is removed is whitespace and what remains is a prefix not ending with whitespace |
| Config.Trim | wayk_cli_client/src/config.rs:67 | the result has no whitespace at either end, is no longer than the input, and is empty exactly when the input is all whitespace |
| Config.TrimPadding | wayk_cli_client/src/config.rs:67 | whitespace added around a string does not change its trimmed form |
| Config.Find | wayk_cli_client/src/config.rs:70 | the position found holds the character and nothing before it does; none is found exactly when the character is absent |
| Config.Split | wayk_cli_client/src/config.rs:80 | at least one piece, no piece holds the separator, and a single piece exactly when the separator is absent |
| Config.JoinSplit | wayk_cli_client/src/config.rs:80 | joining the pieces with the separator gives back the input |
| Config.LowerAscii | wayk_cli_client/src/config.rs:78 | the same length, every ASCII capital lowered by 32 and every other character kept |
| Config.AuthTypeOf | wayk_cli_client/src/config.rs:55-60 | a PFP configuration gives the PFP method and exactly the "none" configuration gives the none method |
| Config.ParseAuthConfig | wayk_cli_client/src/config.rs:66-101 | parses exactly when the lowered method name is "none", or "pfp" with at least two comma-separated pieces; the name and text are then trimmed and comma-free; any other method name gives the "Unknown authentication method" message naming it |
| Config.PfpFields | wayk_cli_client/src/config.rs:86-91 | the name and text are the trimmed first two pieces of the body; later pieces are dropped |
| Config.PfpSpacing | wayk_cli_client/src/config.rs:157-172 | whitespace around the input, the method name, the name and the text, and the method name's case, make no difference to the PFP configuration parsed |
| Config.ParseChatConfig | wayk_cli_client/src/config.rs:112-125 | always parses; the name holds no comma; without a comma the whole trimmed input is the name; otherwise name, comma and status text start the trimmed input |
| Config.ConfiguredMethodOffered | wayk_cli_client/src/config.rs:144-146 | whatever method is configured, the client offers it |
| Config.ConfiguredCapabilitiesDistinct | wayk_cli_client/src/config.rs:129-142 | the client announces one capability set of each kind |
| ShareeSm.ConnectionStage | wayk_proto/src/sharee.rs:61-67 | the sharee ends exactly when an event of the update is fatal, becomes active exactly when the sequence terminated without one, and otherwise stays in the connection stage; the sequence's events come first, then one transition per state change, the last naming the new state |
| ShareeSm.FatalAtTerminationEnds | wayk_proto/src/sharee.rs:61-67 | a fatal event as the sequence terminates goes through active to final |
| ShareeSm.DefsRecorded | wayk_proto/src/sharee.rs:141-148 | every channel opened gets the id of its flags' low byte, a later definition with the same id wins, and other ids keep their channel |
| ShareeSm.MapResponses | wayk_proto/src/sharee.rs:150-162 | one event per response queued by the channel machines |
| ShareeSm.ResponsesMapped | wayk_proto/src/sharee.rs:150-162 | a response becomes a packet exactly when its channel has an id; the packet carries it on an id of that channel; the others become warnings |
| ShareeSm.ChannelsToOpen | wayk_proto/src/sharee.rs:208-213 | one flagless definition per name, in order, and nothing else in the builder changes |
| ShareeSm.Sharee.constructor | wayk_proto/src/sharee.rs:222-231 | a new sharee is in the connection stage with the builder's manager, fresh shared data of its methods, capsets and channels, and an empty id table |
| ShareeSm.Sharee.IsTerminated | wayk_proto/src/sharee.rs:42-44 | terminated exactly in the final state |
| ShareeSm.Sharee.IsRunning | wayk_proto/src/sharee.rs:46-48 | running exactly when not final |
| ShareeSm.Sharee.WaitingForPacket | wayk_proto/src/sharee.rs:50-56 | in the connection stage the sequence answers, when active it waits exactly when every channel machine waits, and when final it does not wait |
| ShareeSm.Sharee.TransitionTo | wayk_proto/src/sharee.rs:164-167 | the state becomes the one given and one transition event naming it is appended |
| ShareeSm.Sharee.GoToActiveState | wayk_proto/src/sharee.rs:141-148 | the sharee becomes active, one transition is appended, and the id table records every opened channel |
| ShareeSm.Sharee.CheckForFatal | wayk_proto/src/sharee.rs:134-139 | a fatal event among those pushed so far ends the sharee with one more transition; otherwise nothing changes |
| ShareeSm.Sharee.MapChannelsManagerResult | wayk_proto/src/sharee.rs:150-162 | the events appended are the mapped responses, in order |
| ShareeSm.Sharee.ConnectionUpdate | wayk_proto/src/sharee.rs:61-67 | the state and events are those of `ConnectionStage`; the id table records the opened channels exactly when the sequence terminated |
| ShareeSm.Sharee.ActiveIdle | wayk_proto/src/sharee.rs:69-74 | a warning when every machine waits, otherwise the first ready machine's events and its responses mapped to channel ids |
| ShareeSm.Sharee.ActiveRouted | wayk_proto/src/sharee.rs:111-120 | a warning when no machine has the message's channel, otherwise that machine's events and its responses mapped to channel ids |
| ShareeSm.Sharee.UpdateWithoutBody | wayk_proto/src/sharee.rs:58-82 | in the connection stage as `ConnectionStage`; when active, the idle machine's outcome with state and ids unchanged; when final, only a terminate packet |
| ShareeSm.Sharee.UpdateWithBody | wayk_proto/src/sharee.rs:84-128 | a message in the connection stage as `ConnectionStage`; a terminate message ends an active sharee and any other message changes nothing; a channel message when active is routed; a body the state does not take draws one error |
| ShareeSm.Sharee.MachineUpdate | wayk_proto/src/sharee.rs:69-74 | the picked machine's events are appended and its responses queued under the current channel name |
| ShareeSm.Tagged | wayk_proto/src/sharee.rs:150-151 | each response paired with the channel name it was queued under |
| ShareeSm.AnsweredOnMapped | wayk_proto/src/sharee.rs:150-162 | after a machine's update its own events come first, then one packet on an id of its channel per response, or a warning when that channel has no id |
| ShareeSm.RoutedToItsChannel | wayk_proto/src/sharee.rs:111-120 | a channel message for a channel without a machine draws one warning; otherwise the machine of that channel answers on that channel |
| ShareeSm.IdleToFirstReady | wayk_proto/src/sharee.rs:69-74 | without a body, a warning when every machine waits; otherwise the first machine in key order that does not wait answers on its channel |
| ClipboardSm.NextId | wayk_proto/src/sm/client_channels/clipboard.rs:172-175 | the next sequence id always differs from the last, by one modulo 65536 |
| ClipboardSm.ClipboardData.constructor | wayk_proto/src/sm/client_channels/clipboard.rs:141-154 | new data: not the owner, automatic fetch on, sequence id 0 |
| ClipboardSm.ClipboardData.SetAutoFetch | wayk_proto/src/sm/client_channels/clipboard.rs:164-166 | only the automatic-fetch mode changes |
| ClipboardSm.ClipboardData.NextSequenceId | wayk_proto/src/sm/client_channels/clipboard.rs:172-175 | the id moves to the next one and is returned; nothing else changes |
| ClipboardSm.ClipboardWithout | wayk_proto/src/sm/client_channels/clipboard.rs:248-263 | only the first call acts: it moves to the capabilities state and sends the capabilities request; later calls report one error; the data never changes |
| ClipboardSm.InDisabled | wayk_proto/src/sm/client_channels/clipboard.rs:297-340 | in the disabled state no message changes the ownership, the fetch mode or the sequence id |
| ClipboardSm.ClipboardWith | wayk_proto/src/sm/client_channels/clipboard.rs:265-411 | a state change is announced by one transition and nothing else, an update that keeps the state pushes at most one problem; the fetch mode never changes; a non-clipboard message draws one warning; a message while not waiting draws one error |
| ClipboardSm.FailureChangesNothing | wayk_proto/src/sm/client_channels/clipboard.rs:280-411 | a response carrying the failure flag changes nothing and is reported as an error |
| ClipboardSm.SetUp | wayk_proto/src/sm/client_channels/clipboard.rs:255-310 | the capabilities request, a successful response that answers with the automatic control request, and a successful control response leave the machine enabled with its data untouched |
| ClipboardSm.OwnershipChanges | wayk_proto/src/sm/client_channels/clipboard.rs:355-382 | ownership is lost only to a format list the callback agrees to, and gained only by a successful format-list response |
| ClipboardSm.SequenceIdAnswers | wayk_proto/src/sm/client_channels/clipboard.rs:355-369 | the sequence id moves exactly on a format list while enabled, and the response carries the new id, with the failure flag when the callback refuses |
| ClipboardSm.DataNeedsOwnership | wayk_proto/src/sm/client_channels/clipboard.rs:383-402 | a format-data request is served exactly when this side owns the clipboard or fetches automatically; a format-data response is warned about exactly when this side is the owner |
| ClipboardSm.ResumeAnswered | wayk_proto/src/sm/client_channels/clipboard.rs:311-323 | a resume request is always answered: the failure flag exactly when the callback refuses, and the machine enabled exactly when it agrees |
| ClipboardSm.NotFailedZero | wayk_proto/src/sm/client_channels/clipboard.rs:34-38 | flags 0 do not carry the failure and the failure flag does |
| ClipboardSm.NeverTerminates | wayk_proto/src/sm/client_channels/clipboard.rs:238-411 | no update reaches the terminated state, and a machine that waits keeps waiting |
| ClipboardSm.ClipboardChannelSM.constructor | wayk_proto/src/sm/client_channels/clipboard.rs:188-194 | a new machine starts initial with the data given |
| ClipboardSm.ClipboardChannelSM.IsTerminated | wayk_proto/src/sm/client_channels/clipboard.rs:234-236 | terminated exactly in the terminated state |
| ClipboardSm.ClipboardChannelSM.WaitingForPacket | wayk_proto/src/sm/client_channels/clipboard.rs:238-246 | waiting exactly in the capabilities, disabled and enabled states |
| ClipboardSm.ClipboardChannelSM.TransitionTo | wayk_proto/src/sm/client_channels/clipboard.rs:220-223 | the state becomes the one given and one transition naming it is appended |
| ClipboardSm.ClipboardChannelSM.UpdateWithoutChanMsg | wayk_proto/src/sm/client_channels/clipboard.rs:248-263 | state, data, events appended and message queued are those of `ClipboardWithout` |
| ClipboardSm.ClipboardChannelSM.UpdateWithChanMsg | wayk_proto/src/sm/client_channels/clipboard.rs:265-411 | state, data, events appended and message queued are those of `ClipboardWith` |
| ClipboardSm.ClipboardChannelSM.InCapabilitiesStep | wayk_proto/src/sm/client_channels/clipboard.rs:280-296 | the capabilities-state step does what `InCapabilities` says |
| ClipboardSm.ClipboardChannelSM.InDisabledStep | wayk_proto/src/sm/client_channels/clipboard.rs:297-340 | the disabled-state step does what `InDisabled` says |
| ClipboardSm.ClipboardChannelSM.InEnabledStep | wayk_proto/src/sm/client_channels/clipboard.rs:341-406 | the enabled-state step does what `InEnabled` says |
| ChannelsManagement.Lookup | wayk_proto/src/channels_manager.rs:49 | nothing is found exactly when no entry has the name; what is found is an entry's machine under that name |
| ChannelsManagement.LookupAt | wayk_proto/src/channels_manager.rs:49 | in a sorted map each entry is what the lookup of its key finds |
| ChannelsManagement.FirstIdle | wayk_proto/src/channels_manager.rs:66-72 | none exactly when every machine waits; otherwise the name of a machine that does not wait, every earlier one waiting |
| ChannelsManagement.FirstIdleIndex | wayk_proto/src/channels_manager.rs:66-72 | the idle machine picked sits at an index before which every machine waits |
| ChannelsManagement.FirstIdleIsLeast | wayk_proto/src/channels_manager.rs:66-72 | the machine picked is registered, does not wait, and every machine with a smaller name waits |
| ChannelsManagement.ChannelsManager.constructor | wayk_proto/src/channels_manager.rs:13-24 | a new manager is empty and its map sorted |
| ChannelsManagement.ChannelsManager.AddSm | wayk_proto/src/channels_manager.rs:26-40 | the map stays sorted, returns the machine it replaces, registers the new one, and every other name finds what it found |
| ChannelsManagement.ChannelsManager.UpdateWithVirtMsg | wayk_proto/src/channels_manager.rs:42-58 | the message goes to the machine of its channel exactly when one is registered, and that name becomes the current one for the responses; otherwise one warning and the current name is kept |
| ChannelsManagement.ChannelsManager.LookupLoop | wayk_proto/src/channels_manager.rs:49 | the search finds what `Lookup` finds |
| ChannelsManagement.ChannelsManager.UpdateWithoutVirtMsg | wayk_proto/src/channels_manager.rs:60-78 | the first machine in key order that does not wait is picked and its name becomes the current one; when every machine waits, one warning |
| ChannelsManagement.ChannelsManager.WaitingForPacket | wayk_proto/src/channels_manager.rs:80-87 | waiting exactly when every machine waits (an empty manager waits), that is when no machine can be picked |
| ChannelsManagement.SameKeys | wayk_proto/src/channels_manager.rs:38-39 | replacing the machine of a name keeps the map sorted and every other name finds what it found |
| ChannelsManagement.Inserted | wayk_proto/src/channels_manager.rs:38-39 | inserting a new name at its place keeps the map sorted and every other name finds what it found |
| ChannelsManagement.WaitingIffNoneIdle | wayk_proto/src/channels_manager.rs:66-87 | the manager waits exactly when no machine can be updated without a message |
| Sm.Reported | wayk_proto/src/sm/client_connection/sub_sm.rs:105-116 | the error an event is built from carries the kind given and no source |
| Sm.HasFatalAppend | wayk_proto/src/sharee.rs:134-139 | a joined event list holds a fatal event exactly when one of its parts does |
| Sm.SMData.constructor | wayk_proto/src/sharee.rs:228 | the shared record holds the methods, capsets and channel definitions given |
| Sm.SMEvents.constructor | wayk_proto/src/sharee.rs:59 | a new event list is empty |
| Sm.SMEvents.Push | wayk_proto/src/sharee.rs:164-167 | the event is appended and nothing else changes |
| Sm.ChannelResponses.constructor | wayk_proto/src/sharee.rs:70 | a new response queue is empty and has no current channel |
| Sm.ChannelResponses.SetCurrentChannelName | wayk_proto/src/channels_manager.rs:50 | the current channel becomes the one given and the queue is kept |
| Sm.ChannelResponses.Push | wayk_proto/src/sm/client_channels/clipboard.rs:257 | the message is queued under the current channel, which is kept |
| Sm.SharedData.constructor | wayk_proto/src/sm/mod.rs:34-38 | the shared record holds the methods, capsets and channels given |
| Sm.IsRunning | wayk_proto/src/sm/mod.rs:27-29 | running exactly when not terminated |
| Sm.DummyConnectionSM.UpdateWithoutMessage | wayk_proto/src/sm/mod.rs:103-106 | the dummy machine answers nothing, without error |
| Sm.DummyConnectionSM.UpdateWithMessage | wayk_proto/src/sm/mod.rs:108-111 | the dummy machine answers nothing to any message, without error |
| Sm.DummyConnectionSM.GetSharedData | wayk_proto/src/sm/mod.rs:88-91 | the dummy machine holds no shared data |
| Sm.DummyConnectionStopped | wayk_proto/src/sm/mod.rs:93-101 | the dummy connection machine is terminated, never waits, and so is not running |
| Sm.DummyVirtChannelSM.GetChannelName | wayk_proto/src/sm/mod.rs:136-139 | the dummy channel machine's channel is the unknown channel "Dummy" |
| Sm.DummyVirtChannelSM.UpdateWithoutChanMsg | wayk_proto/src/sm/mod.rs:151-154 | the dummy channel machine answers nothing, without error |
| Sm.DummyVirtChannelSM.UpdateWithChanMsg | wayk_proto/src/sm/mod.rs:156-159 | the dummy channel machine answers nothing to any message, without error |
| Sm.DummyVirtChannelStopped | wayk_proto/src/sm/mod.rs:141-149 | the dummy channel machine is terminated, never waits, and so is not running |
| ChatSm.WithCapabilities | wayk_proto/src/sm/client_channels/chat.rs:57-60 | only the capabilities change |
| ChatSm.WithFriendlyName | wayk_proto/src/sm/client_channels/chat.rs:61-67 | only the name changes |
| ChatSm.WithStatusText | wayk_proto/src/sm/client_channels/chat.rs:68-74 | only the status text changes |
| ChatSm.Common | wayk_proto/src/sm/client_channels/chat.rs:201 | the capabilities kept are a part of both sides' capabilities |
| ChatSm.AsString65535 | wayk_proto/src/sm/client_channels/chat.rs:162-176 | a string converts exactly when it fits 65535 bytes, and converts to itself |
| ChatSm.ChatWithout | wayk_proto/src/sm/client_channels/chat.rs:152-187 | the data never changes; only the initial state moves, to sync, and only when name and status fit; a name too long reports its string error; any later call reports one error |
| ChatSm.ChatWith | wayk_proto/src/sm/client_channels/chat.rs:189-219 | nothing is sent; only the peer's sync while syncing changes the state, to active, with no event; the data changes only then; the peer's sync while syncing or a text while active draws no event, anything else one error |
| ChatSm.SyncExchange | wayk_proto/src/sm/client_channels/chat.rs:159-208 | the announcement then the peer's sync leave the channel active, knowing the peer's name and status, keeping its own, and holding only capabilities both sides have |
| ChatSm.AnnouncementReadsBack | wayk_proto/src/sm/client_channels/chat.rs:177-183 | the announcement carries this side's name, status, capabilities and the clock's time, and decodes back to itself |
| ChatSm.TooLongStaysInitial | wayk_proto/src/sm/client_channels/chat.rs:162-176 | a name or status too long keeps the machine initial, sends nothing, and reports the string error |
| ChatSm.NeverTerminates | wayk_proto/src/sm/client_channels/chat.rs:144-219 | no update reaches the terminated state, and a machine that waits keeps waiting |
| ChatSm.ChatChannelSM.constructor | wayk_proto/src/sm/client_channels/chat.rs:97-104 | a new machine starts initial with the data given |
| ChatSm.ChatChannelSM.IsTerminated | wayk_proto/src/sm/client_channels/chat.rs:144-146 | terminated exactly in the terminated state |
| ChatSm.ChatChannelSM.UpdateWithoutChanMsg | wayk_proto/src/sm/client_channels/chat.rs:152-187 | state, events appended and message queued are those of `ChatWithout` at the clock's time; the data is kept |
| ChatSm.ChatChannelSM.UpdateWithChanMsg | wayk_proto/src/sm/client_channels/chat.rs:189-219 | state, data and events appended are those of `ChatWith`; nothing is queued |
| CliAuthentication.Failed | wayk_cli_client/src/authentication.rs:54-55 | every error the authenticate machine raises itself is a connection-sequence error of the Authenticate stage carrying a description and no source |
| CliAuthentication.PfpToken | wayk_cli_client/src/authentication.rs:77-79 | corrected: the PFP negotiate token is produced exactly when the friendly name fits 64 UTF-8 bytes and the friendly text 255 (a 256-byte text is refused where the source panics), and is then an Authenticate message to send |
| CliAuthentication.PfpTokenCarriesNegotiate | wayk_cli_client/src/authentication.rs:77-79 | the token sent is an owned PFP token whose data decodes back to the negotiate message holding the configured name and text |
| CliAuthentication.WithoutMessage | wayk_cli_client/src/authentication.rs:50-90 | without shared data the call fails and keeps the state; in Initial it advances to Ongoing exactly when the configured method is among the server's methods; in Ongoing it always moves to PostAuth and yields nothing (none) or the PFP token (pfp, or its error); in PostAuth/Terminated it fails; states only move forward one step |
| CliAuthentication.WithMessage | wayk_cli_client/src/authentication.rs:93-117 | only in PostAuth does a message move the machine, always to Terminated, and the result is Ok exactly for an Authenticate Success; other states fail unchanged; every error is of the Authenticate stage |
| CliAuthentication.NoAuthExchange | wayk_cli_client/src/authentication.rs:58-101 | with the none method offered by the server, the run Initial -> Ongoing -> PostAuth sends nothing and a Success verdict terminates the machine without error |
| CliAuthentication.OnlyVerdictTerminates | wayk_cli_client/src/authentication.rs:93-97 | no call without a message reaches Terminated, and a message reaches it exactly from PostAuth (or leaves it there) |
| CliAuthentication.AuthenticateSM.constructor | wayk_cli_client/src/authentication.rs:25-31 | a new machine starts in Initial with no shared data and the given configuration |
| CliAuthentication.AuthenticateSM.IsTerminated | wayk_cli_client/src/authentication.rs:35-37 | true exactly in the Terminated state |
| CliAuthentication.AuthenticateSM.WaitingForPacket | wayk_cli_client/src/authentication.rs:47-49 | true exactly in PostAuth, while the server's verdict is awaited |
| CliAuthentication.AuthenticateSM.SetSharedData | wayk_cli_client/src/authentication.rs:39-41 | stores the shared data and leaves the state as it was |
| CliAuthentication.AuthenticateSM.UpdateWithoutMessage | wayk_cli_client/src/authentication.rs:50-90 | the new state and the result are those WithoutMessage gives for the old state, the server's methods and the configuration; shared data untouched |
| CliAuthentication.AuthenticateSM.UpdateWithMessage | wayk_cli_client/src/authentication.rs:93-117 | the new state and the result are those WithMessage gives for the old state and the message; shared data untouched |
| ClientConnection.Next | wayk_proto/src/sm/client_connection/mod.rs:66-104 | advancing moves exactly one stage forward in the order Handshake, Negotiate, Authenticate, Associate, Capabilities, Channels, Final, and leaves Final where it is |
| ClientConnection.AfterUpdate | wayk_proto/src/sm/client_connection/mod.rs:128-150 | after an update a terminated sub-machine advances the sequence one stage whatever it answered; otherwise the sequence goes to Final exactly on an error (or stays in Final), and never moves any other way |
| ClientConnection.AdvanceIndex | wayk_proto/src/sm/client_connection/mod.rs:66-104 | n completed stages move the sequence n positions forward, capped at Final |
| ClientConnection.SixStagesReachFinal | wayk_proto/src/sm/client_connection/mod.rs:66-104 | from Handshake exactly six completed stages are needed to reach Final, and fewer never reach it |
| ClientConnection.FinalIsAbsorbing | wayk_proto/src/sm/client_connection/mod.rs:103 | once Final, no answer of a sub-machine moves the sequence |
| ClientConnection.ErrorAtTerminationAdvances | wayk_proto/src/sm/client_connection/mod.rs:131-135 | an error returned by a sub-machine that reports itself terminated is not checked: the sequence still advances one stage |
| ClientConnection.ClientConnectionSeq.constructor | wayk_proto/src/sm/client_connection/mod.rs:35-53 | a new sequence starts in Handshake with the handshake machine current, the user's authenticate machine set aside, no stage announced, and fresh shared data holding the given methods, capabilities and channels |
| ClientConnection.ClientConnectionSeq.IsTerminated | wayk_proto/src/sm/client_connection/mod.rs:120-122 | true exactly in Final |
| ClientConnection.ClientConnectionSeq.CheckResult | wayk_proto/src/sm/client_connection/mod.rs:59-64 | an error response puts the sequence in Final; anything else changes nothing |
| ClientConnection.ClientConnectionSeq.GoToNextState | wayk_proto/src/sm/client_connection/mod.rs:66-104 | the state becomes its successor, the machine for the new stage is installed (the user's authenticate machine when entering Authenticate, leaving the dummy in its slot), and the completed stage is announced to the callback once, in order; Final changes nothing |
| ClientConnection.ClientConnectionSeq.Update | wayk_proto/src/sm/client_connection/mod.rs:128-150 | the sub-machine's response is returned unchanged, the state becomes AfterUpdate of the old state, a completed stage is announced exactly once, and the invariant (machine in place matches the stage, authenticate machine used once, announcements are the completed stages in order) is kept |

## Findings

| source | as written | input that shows it | evidently intended | confidence | as-written member | corrected member |
|---|---|---|---|---|---|---|
| wayk_proto/src/io.rs:220-245 | `peek_u16`/`peek_u32`/`peek_u64` slice `pos..pos + n - 1`, one byte short of the width, then convert the slice to an n-byte array | `peek_u32` on the four bytes 01 00 00 00 at position 0: the 3-byte slice fails to convert and the call panics | slice `pos..pos + n` and return the little-endian value, or end of input when fewer than n bytes remain | not executed | Io.PeekU32PanicsOnFourBytes | Io.PeekUInt |
| wayk_proto/src/container.rs:221-230 | the `Bytes8`/`Bytes16`/`Bytes32`/`Bytes64` decoder returns the payload but leaves the cursor at its start | a `Bytes8` holding AA BB followed by the byte 07: the next `u8` field reads AA instead of 07 | advance the cursor past the payload | not executed | Containers.BytesAsWrittenMisplacesNextField | Containers.BytesRoundTrip |
| wayk_proto/src/header.rs:287-297 | `NowHeader::new` keeps only the low 15 bits of the body size, even for sizes that need the long header | a 65536-byte Update body gets a header announcing length 0 | keep the full 32-bit size when the long header is used | not executed | Header.AsWrittenAnnouncesEmptyBody | Header.NewRoundTrip |
| wayk_proto/src/message/mod.rs:489-508 | `get_type` maps the `Access` variant to the Sharing message type | any access-control message that arrives in a connection-sequence state that does not expect it: the warning names the Sharing type (`sub_sm.rs:25`). `from_message` maps the type itself, so the packet is framed as access control | map `Access` to the AccessControl type | not executed | SubSm.AccessWarnedAsSharing | Messages.GetType |
| wayk_proto/src/message/common/now_string.rs:185-218 | `NowString256` accepts strings up to 256 bytes, but its length field is a `u8` | a 256-byte string is accepted, and encoding it panics on the length conversion | accept at most 255 bytes | not executed | NowStrings.NowString256AcceptsUnencodable | NowStrings.AcceptedStringsEncode |
| wayk_proto/src/message/now_messages/surface.rs:267-285 | `NowSurfaceMapReqMsg::new` and `new_with_mappings` write the list request's subtype | a map request with no mappings encodes to exactly the bytes of a list request and decodes as one | write the map request's subtype | not executed | Surface.MapReqAsWrittenReadsAsListReq | Surface.MapReqReadsBackAsItself |
| wayk_proto/src/message/now_messages/input.rs:136-146 | the unicode event decoder compares the code end with `len - start + 2`, which mixes an absolute position with a count | an event that does not start at offset 0 of the buffer, or is followed by other bytes, is rejected | accept when the code fits in the bytes left and read exactly its bytes | not executed | UnicodeEvent.AsWrittenDependsOnPosition | UnicodeEvent.RoundTrip |
| wayk_proto/src/message/now_messages/update.rs:52-63 | the graphics update decoder reads its data as `Bytes32`, which leaves the cursor on the data | any graphics update followed by other bytes: the data is read again as what follows | read past the data | not executed | Update.GraphicsAsWrittenLeavesData | Update.GraphicsRoundTrip |
| wayk_proto/src/message/connection_sequence/capabilities.rs:422-435 | `UnknownCapset::decode_from` slices up to the end the size field gives, without checking it against the position, and leaves the cursor before the data | the four bytes 00 00 00 00 (size 0, empty name): the end lies before the start and the slice panics | return an error for a size too small, and read past the data | not executed | Capabilities.UnknownShortSizePanics | Capabilities.UnknownRoundTrip |
| wayk_proto/src/message/connection_sequence/capabilities.rs:557-561 | `NowCapset::decode_from` gives an unknown capset every byte left in the buffer | an unknown capset followed by another capset: the second becomes part of the first's data | take only the bytes the size field announces | not executed | Capabilities.UnknownSwallowsWhatFollows | Capabilities.RoundTrip |
| wayk_proto/src/message/now_messages/system.rs:191-301 | the OS-info encoder writes the four kernel strings whatever the kernel flag, while the decoder reads them only under the flag | an OS info without the kernel flag and with a Linux extra: the decoder reads the extra from the empty kernel strings, gets zeros, and leaves the real extra unread | write the kernel strings only under the kernel flag, as the decoder expects | not executed | System.AsWrittenMisreadsExtra | System.OsInfoRoundTrip |
| wayk_proto/src/message/mod.rs:188-243 | a custom virtual channel's payload is encoded with the channel name in front, but the decoder already knows the name from the channel id and does not read it | any custom channel name with any payload: the decoded payload is not the one encoded | encode the payload alone, as for the clipboard and chat channels | not executed | Messages.CustomAsWrittenDoesNotReadBack | Messages.VirtualChannelRoundTrip |

## Left out

- I/O: `NowPacket::read_from` and `NowHeader::read_from` take a `Read` stream. The model decodes the bytes the stream would yield (`Packets.ReadFrom` over a byte sequence). The TCP connection, blocking read loop, logger and printing callbacks of `wayk_cli_client/src/main.rs` are not part of this model.
- `wayk_proto_derive/src/lib.rs` is a procedural macro. The model writes out the code it generates for each type (module `Derived` and each message's codec), not the token generation.
- A value enum without a fallback variant (the clipboard, chat, authenticate and gfwx `repr(u8)` enums) decodes an unlisted value as a decoding error. The generated code for that case is not visible in the macro.
- `Display` is modelled for `ProtoError`, its kinds and I/O errors (Errors.Display). All other `Display`/`Debug` text and all `log::*` calls are dropped. An error description that embeds `{:?}` of a value keeps a fixed placeholder for that value, and so does `received an unexpected message`. The `Debug` rendering of container items is not modelled.
- User callback traits (`ConnectionSeqCallbackTrait`, `ClipboardChannelCallbackTrait`, `ChatChannelCallbackTrait`) are code the machines do not see. Their effects are not modelled. The answers the clipboard machine acts on (`accept_resume`, `transfer_ownership_to_peer`) are parameters of its update.
- The chat machine's `timestamp_fn` (the system clock) is a parameter of the update that reads it.
- `Rc<RefCell<...>>` sharing: the connection sequence's shared data is one record object that the sub-machines read and write. Aliasing through several `Rc` handles and `RefCell` borrow failures are not modelled.
- The boxed sub-machine of the sequencer (`current_sm`, `authenticate_sm`) is recorded as a tag naming which machine is in place. The outcome of its update (the response and whether it then reports itself terminated) is a parameter of `ClientConnection.ClientConnectionSeq.Update`. Its `waiting_for_packet`, which only delegates, is not modelled.
- `ClientConnectionSeqBuilder` is by-value field plumbing. The constructor takes the fields it would hand over. The builder's wrapping of channel names into definitions is modelled once, as `ShareeSm.ChannelsToOpen`.
- `sm/client_connection/mod.rs:70` passes the shared data to `NegotiateSM::new`, whose definition in `sub_sm.rs` takes no argument, and `sub_sm.rs` uses an event-pushing interface that `sm/mod.rs` does not declare. The two files come from different revisions. The model follows each file for its own code (see module `Sm`). For the same reason `from_message` (`packet.rs:59-87`) has no arm for the `NowMessage::Custom` variant (`message/mod.rs:410`), so these files cannot compile together. The model gives the packet of `CustomMsg(ty, _)` a header of type `ty`.
- The definitions of `SMEvent`, `SMEvents`, `SMData` and `ChannelResponses` are not part of this model's sources. They are modelled from their use sites in `sub_sm.rs`, `sharee.rs`, `channels_manager.rs` and the channel machines. The text of the event descriptions is dropped.
- The channel machines inside the channels manager and the sharee are abstracted to their `waiting_for_packet` answer and their update outcome. The connection sequence inside the sharee is abstracted to the events it pushes and whether it then terminates. `get_connection_seq` and the other getters of the sharee are plain field reads and have no members of their own.
- The builder setters of `ShareeBuilder` and of the chat data are datatype field updates. Only `channels_to_open` and the chat setters carry contracts.
- Config.LowerAscii: `str::to_lowercase` is modelled on the ASCII letters only. Non-ASCII case folding is not modelled.
- The GFWX codec's own `Header`, `Filter`, `Quantization`, `Encoder` and `Intent` belong to an external crate. They are local records here, with `Intent` an opaque code.
- Gfwx.ToCodecHeader: `channel_size` and `image_size` are products of `usize` values. The model computes them as unbounded numbers, which is what a 64-bit target gives for `channel_size`. `image_size` can exceed `u64` (debug panic, release wrap-around), and that case is not modelled.
- ClipboardSm.NextId: `sequence_id += 1` on a `u16` is modelled as the release build computes it, wrapping to 0. A debug build panics at 65535, and that panic is not modelled.
- UnicodeEvent.Encode: for a code whose length is a multiple of 256, including 0, the source's flags computation `as u8 - 1` underflows (a panic in a debug build, a wrap-around in a release build). The model returns an encoding error for these lengths. Lengths 5 to 255 encode, with flags whose two bits announce a truncated length (see UnicodeEvent.OtherLengthsMisannounce).
- Packets.FromMessage: the header is built with the corrected `Header.New`, which keeps the whole body length. `NowLongHeader::new` keeps only `body_size & 0x7FFF` (header.rs:290), so for a body over 0xFFFF bytes the source announces a wrong length. That case is the Findings row for header.rs:287-297 (`Header.AsWrittenLosesLongLength`).
- Packets.FromVirtChannel: the header is built with the corrected `Header.New`; for a body over 0xFFFF bytes the source's header announces `body_size & 0x7FFF` (header.rs:290) instead of the length.
- Packets.MessagePacketBytes: holds of the corrected header. With the source's header a body over 0xFFFF bytes is announced with the wrong length.
- Packets.MessagePacketReadsBack: holds of the corrected header. With the source's header the accumulator takes a body over 0xFFFF bytes as `len & 0x7FFF` bytes and cuts the packet short.
- Packets.ChannelPacketBytes: holds of the corrected header. With the source's header a body over 0xFFFF bytes is announced with the wrong length.
- Packets.ChannelPacketReadsBack: holds of the corrected header. With the source's header the accumulator takes a body over 0xFFFF bytes as `len & 0x7FFF` bytes and cuts the packet short.
- Authenticate.DecodeToken: `token_data` is read with the corrected `Containers.DecodeBytes`, which moves past the data. The derived `Bytes16` decoder leaves the cursor at the data (container.rs:221-230, the Findings row for that file).
- Authenticate.TokenRoundTrip: holds for the corrected `Bytes16` decoder. As written the token data is returned and also left as the unread rest.
- Clipboard.DecodeDataRsp: `format_data` is read with the corrected `Containers.DecodeBytes`, which moves past the data. The derived `Bytes32` decoder leaves the cursor at the data (container.rs:221-230).
- Clipboard.DataRspRoundTrip: holds for the corrected `Bytes32` decoder. As written the data is returned and also left as the unread rest.
- Pfp.NewOwnedNegotiateToken: the friendly text is checked with the corrected `NowStrings.TryFrom`, whose limit for `NowString256` is 255 bytes. The source's `from_str` accepts 256 bytes, and `.encode()?` (pfp.rs:42) then panics on the `u8` length conversion (now_string.rs:98). The model returns an error for that text instead; see the Findings row for now_string.rs:185-218.
- CliAuthentication.PfpToken: built on `Pfp.NewOwnedNegotiateToken`, so a 256-byte friendly text gives an error where the source panics.
- Packets.FromMessage: requires the message to encode. In the source `encoded_len` is defined even for a message whose encoding then fails, such as a list longer than its count can state. The model does not build packets for those messages.
- Status: the status-code enums other than those the source's tests use (`DisconnectStatusCode`, `AuthStatusCode`, `ExecStatusCode`) are kept as their `u16` code without a value table.
- `NowSystemOsInfo::set_kernel_infos` and `set_extra_infos` mutate the value in place. They are modelled as functions returning the updated value, since nothing else refers to the old value.
- System.EncodeInfo: the OS description is encoded with the kernel strings only under the kernel flag, which is what the decoder reads, and `System.Encode` and `Messages.Encode` use it. `encode_into` as written always writes all four kernel strings. It is kept as `System.EncodeOsInfoAsWritten` for the findings above, and `System.EncodersAgreeWithKernel` proves the two agree whenever the kernel flag is set.
- Messages.EncodeVirtualChannel: a custom virtual channel is encoded as its payload alone, which is what the decoder reads. The encoder as written puts the channel name first. It is kept as `EncodeCustomAsWritten` for the findings above.
- `static_assertions`, the re-export modules, the `version.rs` constants (only inputs to the handshake default) and the keycode constants of `now_messages/mod.rs` contain no logic and are not modelled.
- Fixed-width arithmetic: integers are unbounded. Every field is bounded by its wire width, and the `as u8` truncations of the source (channel ids in the sharee, the Unicode flags) are written out.
