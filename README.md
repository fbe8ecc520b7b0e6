# jsoncons core in Dafny

This project models five self-contained parts of jsoncons, a header-only C++ library for JSON
and JSON-like binary formats, and proves properties of the model.

- **Byte-string codecs** (`utilities.dfy`, module `Utilities`). These are `encode_base16`,
  `decode_base16`, `encode_base64_generic` with its `encode_base64` and `encode_base64url`
  instances, `decode_base64_generic` with `decode_base64` and `decode_base64url`, and the
  character classes `is_base64` and `is_base64url`. The encoders are loops that `push_back` into
  a caller-owned container, modelled by the class `CharBuffer`. The decoders build a byte vector
  step by step and report `std::invalid_argument` as a `Failure`. Each loop method is proved
  against a specification function, for example `EncodeBase64Text` or `Base64Decoded`. The
  lemmas then give:
  - the length formulas of sections 4, 5 and 8 of RFC 4648;
  - the error conditions;
  - the round trips `decode(encode(b)) == b` for base16, base64 and base64url.
- **`json_options`** (`options.dfy`, module `Options`). This is the settings object:
  - its defaults;
  - its chained setters, which return the same object;
  - the NaN/infinity substitution flags and strings, kept together in the value `Substitutions`
    with their getters;
  - the private quote-tracking state machine `is_string`.
- **`json_content_handler`** (`content_handler.dfy`, module `ContentHandler`). This covers:
  - the closed `semantic_tag_type` enumeration;
  - the public emitters, which forward to the primitive `do_*` events with preset or defaulted
    tags;
  - the default length-hinted `do_begin_object`/`do_begin_array`;
  - `null_json_content_handler`.

  C++ virtual dispatch becomes the value `Implementation`. It is either a recording handler,
  which appends each primitive event to `trace` and answers with a chosen function of the
  events before it and the event,
  or the null handler.
- **`conversion_traits`** (`conversion.dfy`, module `Conversion`). This covers the
  vector-like, `std::array<T, N>` and map-like specialisations, and `decode_stream`/`encode_stream`.
  - Encode is modelled as the exact event trace it sends (`Events`). The lemmas state element
    order and the balanced begin/end/flush framing of nested containers.
  - Decode reads from `RegionReader`. It holds the already-decoded elements of the region and an
    optional failure position, and stands in for the staj reader and its iterators. The decoders
    keep:
    - the partial result on error;
    - the default fill of `std::array`, which stops after min(N, available) + 1 fetches
      without draining the rest;
    - `emplace`, so the first of duplicate keys wins.
  - The throwing `decode_stream` creates a `serialization_error` carrying the reader's line and
    column, exactly when the error code is set.
- **Exceptions** (`exceptions.dfy`, module `Exceptions`). This covers `json_exception_impl`,
  `key_not_found`, `not_an_object` and `serialization_error`. It includes the text their
  `what()` returns, with decimal printing of `size_t` as the function `Decimal`. The lemmas prove
  that the message determines the key, and the line and column as far as the format shows them.

`wrappers.dfy` holds the `Option` and `Result` datatypes the others use.

## Model

| member | source | states |
|---|---|---|
| Utilities.CharBuffer.PushBack | include/jsoncons/jsoncons_utilities.hpp:167-168 | push_back appends one character and keeps the earlier contents |
| Utilities.HexValue | include/jsoncons/jsoncons_utilities.hpp:162 | a character found in "0123456789ABCDEF" has a value below 16 whose digit is that character |
| Utilities.HexValueOfDigit | include/jsoncons/jsoncons_utilities.hpp:162 | each of the 16 digits is found at its own value |
| Utilities.HexDigitsTable | include/jsoncons/jsoncons_utilities.hpp:348 | the decoder's alphabet has 16 entries, and entry v is the digit the encoder writes for v |
| Utilities.Base64AlphabetTable | include/jsoncons/jsoncons_utilities.hpp:149-152 | the standard alphabet has 65 entries: A-Z, a-z, 0-9, '+', '/' at indices 0-63, and '=' at 64 |
| Utilities.Base64UrlAlphabetTable | include/jsoncons/jsoncons_utilities.hpp:153-156 | the URL alphabet has '-' and '_' at 62 and 63, and NUL at 64 |
| Utilities.IsBase64 | include/jsoncons/jsoncons_utilities.hpp:245-249 | is_base64 accepts '+' and '/', and never the padding '=' or NUL |
| Utilities.IsBase64Url | include/jsoncons/jsoncons_utilities.hpp:251-255 | is_base64url accepts '-' and '_', and never '=' or NUL |
| Utilities.IsBase64AcceptsAlphabet | include/jsoncons/jsoncons_utilities.hpp:245-249 | is_base64 holds for a character iff it is one of the 64 digits of the standard alphabet |
| Utilities.IsBase64UrlAcceptsAlphabet | include/jsoncons/jsoncons_utilities.hpp:251-255 | is_base64url holds for a character iff it is one of the 64 digits of the URL alphabet |
| Utilities.Base16Layout | include/jsoncons/jsoncons_utilities.hpp:164-169 | the base16 text of n bytes has 2n characters; byte k gives the digit of its high nibble at 2k and of its low nibble at 2k+1 |
| Utilities.EncodeBase16 | include/jsoncons/jsoncons_utilities.hpp:159-171 | appends exactly the base16 text of the data after the container's earlier contents, and returns 2n |
| Utilities.LowerBoundFinds | include/jsoncons/jsoncons_utilities.hpp:360 | lower_bound over a strictly sorted table lands on the index of a character the table holds |
| Utilities.LowerBoundHexDigit | include/jsoncons/jsoncons_utilities.hpp:360-361 | the entry lower_bound finds equals the character iff it is an upper-case hex digit, and then it is at the digit's value |
| Utilities.DecodeBase16 | include/jsoncons/jsoncons_utilities.hpp:345-373 | returns Base16Decoded(input): "odd length" on an odd length, "not a hex digit" on any character outside 0-9A-F, otherwise the packed nibble pairs in order |
| Utilities.Base16Rejects | include/jsoncons/jsoncons_utilities.hpp:357-368 | an even-length input with any character that lower_bound does not find fails with "not a hex digit", wherever that character is |
| Utilities.HexPairsLength | include/jsoncons/jsoncons_utilities.hpp:355-372 | a valid input of even length decodes to length/2 bytes |
| Utilities.NibbleRoundTrip | include/jsoncons/jsoncons_utilities.hpp:370 | packing a byte's high and low nibble gives the byte back |
| Utilities.HexPairsOfBase16 | include/jsoncons/jsoncons_utilities.hpp:159-373 | the base16 text of any data consists of hex digits only and pairs back to the data |
| Utilities.Base16RoundTrip | include/jsoncons/jsoncons_utilities.hpp:159-373 | decode_base16 of encode_base16's output succeeds with the original bytes |
| Utilities.SextetsSplitGroup | include/jsoncons/jsoncons_utilities.hpp:189-192 | the four sextets are the base-64 digits of the 24-bit group b0·b1·b2, most significant first |
| Utilities.Repeat | include/jsoncons/jsoncons_utilities.hpp:222-226 | the padding run is n copies of the fill character |
| Utilities.FinalDigits | include/jsoncons/jsoncons_utilities.hpp:210-218 | a final group of i octets writes i+1 digits |
| Utilities.PushFill | include/jsoncons/jsoncons_utilities.hpp:220-227 | the padding loop appends 3-i fill characters and counts them |
| Utilities.EncodeGroupInto | include/jsoncons/jsoncons_utilities.hpp:187-200 | a complete group of three octets appends its four digits and extends the encoding of the groups so far |
| Utilities.EncodeFinalInto | include/jsoncons/jsoncons_utilities.hpp:203-228 | the final group of i zero-filled octets appends i+1 digits, then padding up to four characters unless the fill character is NUL |
| Utilities.EncodeBase64Generic | include/jsoncons/jsoncons_utilities.hpp:173-231 | appends exactly EncodeBase64Text(alphabet, data) after the earlier contents and returns the number of characters appended |
| Utilities.EncodeBase64 | include/jsoncons/jsoncons_utilities.hpp:239-243 | appends the standard encoding and returns 4·⌈n/3⌉ |
| Utilities.EncodeBase64Url | include/jsoncons/jsoncons_utilities.hpp:233-237 | appends the URL encoding and returns 4·(n/3) + (0 if n%3 = 0, else n%3+1) |
| Utilities.EncodeGroupsLength | include/jsoncons/jsoncons_utilities.hpp:184-201 | 3g octets in complete groups encode to 4g digits |
| Utilities.EncodedLength | include/jsoncons/jsoncons_utilities.hpp:173-231 | the encoding has 4 characters per complete group; a partial final group adds one more character than it has octets, or four characters when the fill character is not NUL |
| Utilities.Base64Length | include/jsoncons/jsoncons_utilities.hpp:149-152 | with the standard alphabet the encoding is padded to 4·⌈n/3⌉ characters |
| Utilities.Base64UrlLength | include/jsoncons/jsoncons_utilities.hpp:153-156 | with the URL alphabet nothing is padded: 4·(n/3) + (0 if n%3 = 0, else n%3+1) characters |
| Utilities.BeforePadding | include/jsoncons/jsoncons_utilities.hpp:271 | decoding reads the longest prefix without '=' and stops at the first '=' or at the end |
| Utilities.DecodeFinal | include/jsoncons/jsoncons_utilities.hpp:306-328 | a final partial group of r characters gives r-1 octets, so a lone trailing character gives none |
| Utilities.Base64Rejects | include/jsoncons/jsoncons_utilities.hpp:271-276 | a character before the first '=' that the class predicate rejects makes decoding fail with "Invalid encoded string" |
| Utilities.Base64Accepts | include/jsoncons/jsoncons_utilities.hpp:271-330 | when every character before the first '=' is accepted, decoding succeeds with the octets of the complete groups followed by those of the final partial group |
| Utilities.LookupSextets | include/jsoncons/jsoncons_utilities.hpp:281-292 | each stored character becomes its first index in the table, or 0xff when the table lacks it, and nothing else changes |
| Utilities.PushOctets | include/jsoncons/jsoncons_utilities.hpp:298-301 | appends the first n octets of the scratch array to the result |
| Utilities.DecodeGroupInto | include/jsoncons/jsoncons_utilities.hpp:279-303 | four stored characters extend the decoding of the complete groups read so far by one group |
| Utilities.DecodeFinalInto | include/jsoncons/jsoncons_utilities.hpp:306-328 | the i stored characters of the final group append DecodeFinal of them |
| Utilities.DecodeBase64Generic | include/jsoncons/jsoncons_utilities.hpp:257-331 | the result is Base64Decoded(s, table, f): an error or the decoded octets, as Base64Rejects and Base64Accepts describe |
| Utilities.DecodeBase64 | include/jsoncons/jsoncons_utilities.hpp:333-337 | decodes with the 65-entry standard table ('=' included) and is_base64 |
| Utilities.DecodeBase64Url | include/jsoncons/jsoncons_utilities.hpp:339-343 | decodes with the first 64 entries of the URL table and is_base64url |
| Utilities.DigitLookup | include/jsoncons/jsoncons_utilities.hpp:283-290 | looking up digit v of an alphabet in a matching table gives v back |
| Utilities.StandardCompatible | include/jsoncons/jsoncons_utilities.hpp:333-337 | the standard alphabet, its decode table and is_base64 fit: every digit is accepted, none is '=', and the 64 digits are distinct |
| Utilities.UrlCompatible | include/jsoncons/jsoncons_utilities.hpp:339-343 | the same holds for the URL alphabet, its 64-entry table and is_base64url |
| Utilities.FirstOctetRoundTrip | include/jsoncons/jsoncons_utilities.hpp:294 | the decoder's first octet formula recovers b0 from the encoder's first two sextets |
| Utilities.SecondOctetRoundTrip | include/jsoncons/jsoncons_utilities.hpp:295 | the second octet formula recovers b1 from the second and third sextets |
| Utilities.ThirdOctetRoundTrip | include/jsoncons/jsoncons_utilities.hpp:296 | the third octet formula recovers b2 from the third and fourth sextets |
| Utilities.GroupRoundTrip | include/jsoncons/jsoncons_utilities.hpp:189-196 | decoding the four digits of an encoded group gives the three octets back |
| Utilities.GroupsRoundTrip | include/jsoncons/jsoncons_utilities.hpp:184-304 | decoding the digits of 3g octets in complete groups gives the octets back |
| Utilities.FinalRoundTrip | include/jsoncons/jsoncons_utilities.hpp:203-328 | decoding the digits of a final group of one or two octets gives them back |
| Utilities.RoundTrip | include/jsoncons/jsoncons_utilities.hpp:173-331 | for any alphabet, table and class predicate that fit, decoding the encoding of any data succeeds with the data |
| Utilities.Base64RoundTrip | include/jsoncons/jsoncons_utilities.hpp:239-337 | decode_base64(encode_base64(b)) == b |
| Utilities.Base64UrlRoundTrip | include/jsoncons/jsoncons_utilities.hpp:233-343 | decode_base64url(encode_base64url(b)) == b |
| Options.JsonOptions.constructor | include/jsoncons/json_options.hpp:218-253 | the defaults: indent 4, line length limit 120, max nesting depth the largest size_t, space after colon and comma, the four line-split defaults, "\n" as new line, base10 big integers, no byte-string format, no padding, no escaping, and no NaN/infinity substitution |
| Options.JsonOptions.ByteStringFormat | include/jsoncons/json_options.hpp:257 | sets only that field and returns the same object |
| Options.JsonOptions.BigIntegerFormat | include/jsoncons/json_options.hpp:260 | sets only that field and returns the same object |
| Options.JsonOptions.ObjectObjectLineSplits | include/jsoncons/json_options.hpp:263 | sets only that field and returns the same object |
| Options.JsonOptions.ArrayObjectLineSplits | include/jsoncons/json_options.hpp:266 | sets only that field and returns the same object |
| Options.JsonOptions.ObjectArrayLineSplits | include/jsoncons/json_options.hpp:269 | sets only that field and returns the same object |
| Options.JsonOptions.ArrayArrayLineSplits | include/jsoncons/json_options.hpp:272 | sets only that field and returns the same object |
| Options.JsonOptions.IndentSize | include/jsoncons/json_options.hpp:279-283 | sets only that field and returns the same object |
| Options.JsonOptions.SpacesAroundColon | include/jsoncons/json_options.hpp:290-294 | sets only that field and returns the same object |
| Options.JsonOptions.SpacesAroundComma | include/jsoncons/json_options.hpp:301-305 | sets only that field and returns the same object |
| Options.JsonOptions.PadInsideObjectBraces | include/jsoncons/json_options.hpp:312-316 | sets only that field and returns the same object |
| Options.JsonOptions.PadInsideArrayBrackets | include/jsoncons/json_options.hpp:323-327 | sets only that field and returns the same object |
| Options.JsonOptions.NewLineChars | include/jsoncons/json_options.hpp:334-338 | sets only that field and returns the same object |
| Options.JsonOptions.LosslessNumber | include/jsoncons/json_options.hpp:527-531 | sets only that field and returns the same object |
| Options.JsonOptions.LineLengthLimit | include/jsoncons/json_options.hpp:538-542 | sets only that field and returns the same object |
| Options.JsonOptions.FloatingPointFormat | include/jsoncons/json_options.hpp:549-553 | sets only that field and returns the same object |
| Options.JsonOptions.Precision | include/jsoncons/json_options.hpp:560-564 | sets only that field and returns the same object |
| Options.JsonOptions.EscapeAllNonAscii | include/jsoncons/json_options.hpp:571-575 | sets only that field and returns the same object |
| Options.JsonOptions.EscapeSolidus | include/jsoncons/json_options.hpp:582-586 | sets only that field and returns the same object |
| Options.JsonOptions.MaxNestingDepth | include/jsoncons/json_options.hpp:593-596 | sets only that field and returns nothing |
| Options.JsonOptions.NanToNum | include/jsoncons/json_options.hpp:397-403 | changes the substitution state exactly as WithNanToNum does (see NanToNumReplaces) and returns the same object |
| Options.JsonOptions.InfToNum | include/jsoncons/json_options.hpp:417-423 | changes the substitution state exactly as WithInfToNum does and returns the same object |
| Options.JsonOptions.NeginfToNum | include/jsoncons/json_options.hpp:444-450 | changes the substitution state exactly as WithNeginfToNum does and returns the same object |
| Options.JsonOptions.NanToStr | include/jsoncons/json_options.hpp:464-471 | with the boolean defaulting to true, changes the substitution state exactly as WithNanToStr does and returns the same object |
| Options.JsonOptions.InfToStr | include/jsoncons/json_options.hpp:485-492 | with the boolean defaulting to true, and corrected as under Findings: changes the substitution state as WithInfToStrIntended does (see InfToStrIntendedReplaces) and returns the same object |
| Options.JsonOptions.NeginfToStr | include/jsoncons/json_options.hpp:513-520 | with the boolean defaulting to true, and corrected as under Findings: changes the substitution state as WithNeginfToStrIntended does and returns the same object |
| Options.DefaultsSubstituteNothing | include/jsoncons/json_options.hpp:218-253 | on default options every substitution flag is off, including the derived negative-infinity ones, and every substitution getter returns "" |
| Options.GettersIgnoreFlags | include/jsoncons/json_options.hpp:385-483 | nan_to_num(), inf_to_num(), nan_to_str() and inf_to_str() return the stored string whatever their flag; the negative-infinity getters do too unless the infinity flag alone is set |
| Options.NeginfFollowsInf | include/jsoncons/json_options.hpp:350-511 | without its own flag, negative infinity is substituted iff infinity is, with "-" before the infinity text; is_str_to_neginf follows is_str_to_inf the same way; with its own flag the stored text wins |
| Options.NanToNumReplaces | include/jsoncons/json_options.hpp:397-403 | nan_to_num sets its flag and text, empties the NaN string, leaves is_nan_to_str and is_str_to_nan as they were, and changes nothing else |
| Options.InfToNumReplaces | include/jsoncons/json_options.hpp:417-423 | inf_to_num sets its flag and text and empties the infinity string; negative infinity then becomes "-" and the text unless it has a text of its own; nothing else changes |
| Options.NeginfToNumReplaces | include/jsoncons/json_options.hpp:444-450 | neginf_to_num sets its flag and text and empties its own string, so a negative-infinity string can then only come from the infinity string; nothing else changes |
| Options.NanToStrReplaces | include/jsoncons/json_options.hpp:464-471 | nan_to_str sets is_nan_to_str, sets is_str_to_nan to the argument, stores the string, empties the NaN number text, and changes nothing else |
| Options.InfToStrAsWritten | include/jsoncons/json_options.hpp:485-492 | as written, inf_to_str leaves is_inf_to_str equal to its boolean argument, leaves is_str_to_inf unchanged, stores the string and empties the number text |
| Options.NeginfToStrAsWritten | include/jsoncons/json_options.hpp:513-520 | as written, neginf_to_str leaves its flag equal to the argument and leaves is_str_to_neginf unchanged |
| Options.InfToStrDiffersFromNanToStr | include/jsoncons/json_options.hpp:464-520 | on default options, nan_to_str("NaN", true) turns on both NaN flags, but inf_to_str("Infinity", true) does not turn on reading back, and inf_to_str("Infinity", false) does not even turn on writing; the same holds for neginf_to_str |
| Options.InfToStrIntendedReplaces | include/jsoncons/json_options.hpp:464-492 | the corrected inf_to_str behaves like nan_to_str: it always writes the string, reads it back iff asked, negative infinity follows with "-", and nothing else changes |
| Options.NeginfToStrIntendedReplaces | include/jsoncons/json_options.hpp:513-520 | the corrected neginf_to_str always writes its string, reads it back iff asked, and changes nothing else |
| Options.Substitutions.IsNeginfToNum | include/jsoncons/json_options.hpp:350-353 | negative infinity is written as a number whenever infinity is; without that, iff it has its own flag |
| Options.Substitutions.IsNeginfToStr | include/jsoncons/json_options.hpp:375-378 | negative infinity is written as a string whenever infinity is; without that, iff it has its own flag |
| Options.Substitutions.IsStrToNeginf | include/jsoncons/json_options.hpp:380-383 | a string is read back as negative infinity whenever one is for infinity; without that, iff its own flag is set |
| Options.Substitutions.NeginfToNum | include/jsoncons/json_options.hpp:425-442 | with its own flag, the stored negative-infinity text; otherwise the stored text, or, when only infinity has its flag, "-" followed by the infinity text |
| Options.Substitutions.NeginfToStr | include/jsoncons/json_options.hpp:494-511 | with its own flag, the stored negative-infinity string; otherwise the stored string, or, when only infinity has its flag, "-" followed by the infinity string |
| Options.QuoteStep | include/jsoncons/json_options.hpp:605-636 | a backslash always moves to escape; blanks and other characters keep the state; a double quote moves to end_quote iff in begin_quote or character, to error iff in end_quote, to begin_quote iff in initial, and never to initial or escape |
| Options.JsonOptions.IsString | include/jsoncons/json_options.hpp:598-641 | the loop returns true iff the fold of the character steps over the text ends in end_quote |
| Options.QuoteStateAppend | include/jsoncons/json_options.hpp:602-640 | the state machine is a left fold: reading s then t is reading t from the state s leaves |
| Options.PlainKeepsState | include/jsoncons/json_options.hpp:605-637 | characters other than '"' and '\\' leave the state as it is |
| Options.BackslashEscapes | include/jsoncons/json_options.hpp:609-611 | a backslash moves to escape from any state |
| Options.IsStringSmallCases | include/jsoncons/json_options.hpp:598-641 | "" is not a string and "\"\"" is |
| Options.QuotedIsString | include/jsoncons/json_options.hpp:598-641 | blanks, a double quote, text without quotes or backslashes, a double quote and blanks form a string |
| Options.ThirdQuoteIsError | include/jsoncons/json_options.hpp:624-626 | a double quote after a complete string moves to error |
| ContentHandler.TagValue | include/jsoncons/json_content_handler.hpp:25-38 | every tag's value is below 11, and only none has value 0 |
| ContentHandler.TagValuesExact | include/jsoncons/json_content_handler.hpp:25-38 | the eleven tags correspond one to one, in declared order, to the values 0 to 10 |
| ContentHandler.Implementation.Reply | include/jsoncons/json_content_handler.hpp:217-293 | the null handler's do_* members answer true to every event; a recording handler answers from the events before and the event |
| ContentHandler.Implementation.Kept | include/jsoncons/json_content_handler.hpp:217-293 | a recording handler keeps every event it is sent, in order; the null handler keeps none |
| ContentHandler.Handler.constructor | include/jsoncons/json_content_handler.hpp:217-220 | a new handler has received no events and dispatches to the given implementation |
| ContentHandler.Handler.Do | include/jsoncons/json_content_handler.hpp:172-214 | a primitive do_* event is kept as the implementation keeps it, after the earlier ones, and the answer is the implementation's answer given the earlier events |
| ContentHandler.NullHandlerAcceptsAll | include/jsoncons/json_content_handler.hpp:217-293 | the null handler answers true to every event and keeps none |
| ContentHandler.KeptAppend | include/jsoncons/json_content_handler.hpp:172-214 | what an implementation keeps of events sent one after another is what it keeps of each |
| ContentHandler.Handler.DoBeginObjectSized | include/jsoncons/json_content_handler.hpp:176-179 | the default length-hinted do_begin_object drops the length and sends the un-hinted event with the same tag and context |
| ContentHandler.Handler.DoBeginArraySized | include/jsoncons/json_content_handler.hpp:185-188 | the same for do_begin_array |
| ContentHandler.Handler.EmitFlush | include/jsoncons/json_content_handler.hpp:50-53 | flush sends exactly one flush event |
| ContentHandler.Handler.EmitBeginObject | include/jsoncons/json_content_handler.hpp:55-59 | sends one begin_object event with the given or defaulted (none) tag and context, and returns the implementation's answer |
| ContentHandler.Handler.EmitBeginObjectSized | include/jsoncons/json_content_handler.hpp:61-66 | goes through the length-hinted do_begin_object, which by default sends begin_object with the same tag and context |
| ContentHandler.Handler.EmitEndObject | include/jsoncons/json_content_handler.hpp:68-71 | sends one end_object event and returns the answer |
| ContentHandler.Handler.EmitBeginArray | include/jsoncons/json_content_handler.hpp:73-77 | sends one begin_array event with the given or defaulted tag and returns the answer |
| ContentHandler.Handler.EmitBeginArraySized | include/jsoncons/json_content_handler.hpp:79-84 | goes through the length-hinted do_begin_array |
| ContentHandler.Handler.EmitEndArray | include/jsoncons/json_content_handler.hpp:86-89 | sends one end_array event and returns the answer |
| ContentHandler.Handler.EmitName | include/jsoncons/json_content_handler.hpp:91-94 | sends one name event with the same name and returns the answer |
| ContentHandler.Handler.EmitStringValue | include/jsoncons/json_content_handler.hpp:96-101 | sends one string event with the same text and tag |
| ContentHandler.Handler.EmitByteStringValue | include/jsoncons/json_content_handler.hpp:103-108 | sends one byte-string event with the same bytes and tag |
| ContentHandler.Handler.EmitByteStringValueFrom | include/jsoncons/json_content_handler.hpp:110-115 | sends one byte-string event holding exactly the first size bytes at p |
| ContentHandler.Handler.EmitBigIntegerValue | include/jsoncons/json_content_handler.hpp:117-120 | is string_value with the big_integer tag |
| ContentHandler.Handler.EmitBigDecimalValue | include/jsoncons/json_content_handler.hpp:122-125 | is string_value with the big_decimal tag |
| ContentHandler.Handler.EmitDateTimeValue | include/jsoncons/json_content_handler.hpp:127-130 | is string_value with the date_time tag |
| ContentHandler.Handler.EmitTimestampValue | include/jsoncons/json_content_handler.hpp:132-135 | is int64_value with the timestamp tag |
| ContentHandler.Handler.EmitInt64Value | include/jsoncons/json_content_handler.hpp:137-142 | sends one int64 event with the same value and tag |
| ContentHandler.Handler.EmitUInt64Value | include/jsoncons/json_content_handler.hpp:144-149 | sends one uint64 event with the same value and tag |
| ContentHandler.Handler.EmitDoubleValue | include/jsoncons/json_content_handler.hpp:151-156 | sends one double event with the same value and tag |
| ContentHandler.Handler.EmitBoolValue | include/jsoncons/json_content_handler.hpp:158-163 | sends one bool event with the same value and tag |
| ContentHandler.Handler.EmitNullValue | include/jsoncons/json_content_handler.hpp:165-169 | sends one null event with the given or defaulted tag |
| Conversion.Encode | include/jsoncons/conversion_traits.hpp:182-186 | encode_stream dispatches on the container kind, and the writer receives exactly the events Events gives for the value, whatever the handler answers, even when its answers depend on the events before |
| Conversion.EncodeFallback | include/jsoncons/conversion_traits.hpp:60-64 | a leaf sends exactly the events of its generic encoding |
| Conversion.EncodeVector | include/jsoncons/conversion_traits.hpp:92-101 | sends begin_array, each element's events in order, end_array and flush |
| Conversion.EncodeArray | include/jsoncons/conversion_traits.hpp:125-134 | sends begin_array, the events of all N elements in index order, end_array and flush |
| Conversion.EncodeMap | include/jsoncons/conversion_traits.hpp:163-173 | sends begin_object, then name(key) and the value's events for each entry in order, then end_object and flush |
| Conversion.EncodeItems | include/jsoncons/conversion_traits.hpp:95-98 | the element loop extends the trace by the elements' events |
| Conversion.EncodeEntries | include/jsoncons/conversion_traits.hpp:166-170 | the entry loop extends the trace by each entry's name and value events |
| Conversion.ItemsEventsAppend | include/jsoncons/conversion_traits.hpp:95-98 | the events of two runs of elements are the events of the first followed by those of the second |
| Conversion.ItemInPlace | include/jsoncons/conversion_traits.hpp:95-98 | element i's events sit between the events of the elements before it and those of the elements after it |
| Conversion.EntriesEventsAppend | include/jsoncons/conversion_traits.hpp:166-170 | the same for the entries of a map |
| Conversion.EntryInPlace | include/jsoncons/conversion_traits.hpp:166-170 | entry i sends its name and then its value's events, between the entries before it and those after it |
| Conversion.CountAppend | include/jsoncons/conversion_traits.hpp:92-173 | counting events of one kind is additive over concatenation |
| Conversion.FramedAppend | include/jsoncons/conversion_traits.hpp:92-173 | two framed event runs concatenate to a framed run with the sum of their containers and of their leaves' own flushes |
| Conversion.WrapFramed | include/jsoncons/conversion_traits.hpp:94-100 | a begin, a framed body and an end followed by flush are framed with one more container and the same leaf flushes |
| Conversion.EncodeFramesContainers | include/jsoncons/conversion_traits.hpp:92-173 | when leaves begin and end no container (they may flush), a value's events have exactly one begin and one end per container, nested containers included, and as many flushes as containers plus the leaves' own flushes |
| Conversion.ScalarLeavesFlushPerContainer | include/jsoncons/conversion_traits.hpp:92-173 | when leaves send scalar events only, every flush is a container's own: one begin, one end and one flush per container |
| Conversion.LeafFlushes | include/jsoncons/conversion_traits.hpp:92-173 | the flushes the leaves of a value send on their own are none when no leaf encoding flushes |
| Conversion.Events | include/jsoncons/conversion_traits.hpp:92-173 | a container's events end with flush, begin with begin_array (vector-like and std::array) or begin_object (map-like), and close with the matching end just before the flush |
| Conversion.RegionReader.constructor | include/jsoncons/conversion_traits.hpp:82 | a reader over a region has fetched nothing yet and reports the given line and column |
| Conversion.RegionReader.Open | include/jsoncons/conversion_traits.hpp:82 | constructing the iterator fetches element 0 and sets the error code that fetch sets |
| Conversion.RegionReader.Increment | include/jsoncons/conversion_traits.hpp:87 | increment fetches the next element and sets the error code that fetch sets |
| Conversion.FetchingStops | include/jsoncons/conversion_traits.hpp:84 | when a decode loop stops, it has fetched up to the last available element (or the limit), and ec says whether a fetch failed |
| Conversion.DecodeVector | include/jsoncons/conversion_traits.hpp:78-90 | returns the available elements in source order, also on error, with the error code of the first failing fetch if any |
| Conversion.Filled | include/jsoncons/conversion_traits.hpp:112-121 | N slots: the decoded prefix, then T{} in every other slot |
| Conversion.DecodeArray | include/jsoncons/conversion_traits.hpp:110-123 | returns N slots with the first min(N, available) elements and T{} after them; stops after min(N, available) + 1 fetches (the constructor's and one per stored element) without draining the rest; reports the error of any fetch up to element min(N, available), so a failure when fetching element N sets the error code even though all N slots are filled |
| Conversion.Emplaced | include/jsoncons/conversion_traits.hpp:155-159 | the map built by emplace has at most one entry per pair read, and the first pair is always in it with its own value |
| Conversion.EmplacedKeys | include/jsoncons/conversion_traits.hpp:155-159 | the decoded map's keys are exactly the keys of the pairs read |
| Conversion.EmplaceKeepsFirst | include/jsoncons/conversion_traits.hpp:157 | a key's first pair gives its value: later duplicates are ignored |
| Conversion.DecodeMap | include/jsoncons/conversion_traits.hpp:148-161 | returns the emplace-built map of the available pairs, also on error, with the error code of the first failing fetch if any |
| Conversion.DecodeVectorOrThrow | include/jsoncons/conversion_traits.hpp:30-39 | decode_stream for a vector-like type: the decoded value, and a fresh serialization_error with the reader's line and column iff the error code is set |
| Conversion.DecodeArrayOrThrow | include/jsoncons/conversion_traits.hpp:30-39 | decode_stream for std::array, with the same throw condition |
| Conversion.DecodeMapOrThrow | include/jsoncons/conversion_traits.hpp:30-39 | decode_stream for a map-like type, with the same throw condition |
| Exceptions.Decimal | include/jsoncons/json_exception.hpp:126 | printing an unsigned number gives at least one digit and no leading zero |
| Exceptions.DecimalRoundTrip | include/jsoncons/json_exception.hpp:126 | the printed digits read back as the number |
| Exceptions.DecimalInjective | include/jsoncons/json_exception.hpp:126 | different numbers print differently |
| Exceptions.DigitsBeforeSpace | include/jsoncons/json_exception.hpp:126 | a run of digits followed by text that starts with a space splits in only one way |
| Exceptions.JsonExceptionImpl.constructor | include/jsoncons/json_exception.hpp:30-40 | what() returns the constructor's string verbatim |
| Exceptions.JsonExceptionImpl.What | include/jsoncons/json_exception.hpp:37-40 | what() returns the stored message, the string given to the constructor |
| Exceptions.Quoted | include/jsoncons/json_exception.hpp:52-55 | prefix, key and suffix, recoverable by position from the message |
| Exceptions.QuotedInjective | include/jsoncons/json_exception.hpp:48-86 | two messages of the same kind are equal only for the same key |
| Exceptions.KeyNotFound.constructor | include/jsoncons/json_exception.hpp:48-56 | the quoted key is the first length characters of the key, and the buffer is "Key '", that key, then "' not found" |
| Exceptions.KeyNotFound.What | include/jsoncons/json_exception.hpp:60-63 | what() is the fixed prefix "Key '", then exactly the quoted key, then the fixed suffix "' not found" |
| Exceptions.NotAnObject.constructor | include/jsoncons/json_exception.hpp:71-79 | the quoted key is the first length characters of the key, and the buffer is "Attempting to access or modify '", that key, then "' on a value that is not an object" |
| Exceptions.NotAnObject.What | include/jsoncons/json_exception.hpp:83-86 | what() is the fixed prefix, then exactly the quoted key, then the fixed suffix "' on a value that is not an object" |
| Exceptions.MessagesDiffer | include/jsoncons/json_exception.hpp:52-78 | the two messages for the same key differ |
| Exceptions.WhatText | include/jsoncons/json_exception.hpp:118-139 | what() starts with the error code's message, and is that message alone iff the column is 0, whatever the line |
| Exceptions.Location | include/jsoncons/json_exception.hpp:124-131 | the location is empty iff the column is 0; otherwise it starts with " at " and its fifth character is 'l' (" at line ...") when the line is nonzero and 'p' (" at position ...") otherwise |
| Exceptions.LineFormInjective | include/jsoncons/json_exception.hpp:126 | " at line L and column C" determines L and C |
| Exceptions.LocationInjective | include/jsoncons/json_exception.hpp:124-131 | the location text determines the column, whether the line is 0, and the line when both are nonzero |
| Exceptions.WhatDeterminesLocation | include/jsoncons/json_exception.hpp:118-139 | for the same error code, equal what() texts mean the same column, and the same line whenever the format shows it |
| Exceptions.SerializationError.constructor | include/jsoncons/json_exception.hpp:94-98 | the default error: a default error code, line 0 and column 0 |
| Exceptions.SerializationError.FromCode | include/jsoncons/json_exception.hpp:99-102 | (ec) stores ec with line 0 and column 0 |
| Exceptions.SerializationError.AtPosition | include/jsoncons/json_exception.hpp:103-106 | (ec, position) stores ec with line 0 and column position |
| Exceptions.SerializationError.AtLineColumn | include/jsoncons/json_exception.hpp:107-110 | (ec, line, column) stores all three |
| Exceptions.SerializationError.Copy | include/jsoncons/json_exception.hpp:111-116 | the copy keeps the code, the line and the column, and starts with an empty buffer |
| Exceptions.SerializationError.What | include/jsoncons/json_exception.hpp:118-134 | writes WhatText(code, line, column) into the buffer and returns it |

## Left out

- Bit operations (`>>`, `&`, `|`, `<<`) are written as division, remainder and multiplication by powers of two on `Byte` (0-255). The `uint8_t` stores of the base64 decoder wrap modulo 256, as the code does when a character is missing from the table (0xff).
- `isalnum` is taken in the "C" locale (ASCII letters and digits). Other locales are not modelled.
- `std::string` characters are `Char8` (code points below 256), and `size_t` is 64 bits (`SizeT`).
- The caller-owned output container of the encoders is `CharBuffer` holding a sequence. Other container types, and their allocation failures, are not modelled.
- Each encoder's first and last loop variables (`first`, `last`, `j`) are indices into a sequence rather than pointers. Reading past the input is not possible in the model.
- `string_viewable`, `basic_null_istream` and the remaining helpers of jsoncons_utilities.hpp (stream I/O, and wide characters through `unicons::convert`) are not modelled.
- Floating-point formatting (`chars_format`, `floating_point_format`, `precision`) is stored but not interpreted. A `double` event carries an opaque 64-bit pattern.
- `serializing_context` is opaque: an event carries either the null context or an abstract source context.
- ContentHandler.Handler: the virtual `do_*` members of other handler subclasses are modelled only through the recording and null implementations. A recording handler's answers are a parameter.
- Conversion.Encode: the generic fallback `conversion_traits` (json_decoder, basic_json, json_type_traits and dump are not part of this model) is the parameter `leafEvents`. Its decode half is not modelled.
- Conversion: the staj reader and its array and object iterators are replaced by `RegionReader`, a finite sequence of already-decoded elements plus an optional failing fetch. How elements are parsed is not modelled.
- Conversion.DecodeMap: keys are strings. Other key types of map-like containers are not modelled.
- Conversion.DecodeVector: `decode_stream(reader, val, ec)` and `encode_stream` are single calls to the traits, so they are the same members as the traits' decode and encode.
- Conversion.DecodeVector, Conversion.DecodeArray, Conversion.DecodeMap: on a failing fetch the decoders return the container built so far (conversion_traits.hpp:84-89, 116-122, 155-160), and the model keeps it.
- Exceptions.ErrorCode: an `std::error_code` is its value and the text of its `message()`, which comes from the error category and is an input. The default code's message is taken as "Success", the GNU C library's text for value 0 in the system category.
- Exceptions.KeyNotFound.constructor: the conversion of the key through `unicons::convert` with strict flags is the identity on the first `length` characters. Conversion errors of other character types are not modelled.
- Exceptions.SerializationError.What: the `catch (...)` branch that returns "" when formatting throws (allocation failure) is not modelled.
- The accessors `code()`, `line_number()` and `column_number()` are the class's constant fields `code`, `line` and `column`, read directly.
- The `JSONCONS_ASSERT` macros (json_exception.hpp:162-175) are not modelled. They throw on a failed condition and are not used by the modelled code.
- decode_json and encode_json (json_conversion.hpp) are I/O plumbing over readers and serializers that are not part of this model.

## Findings

| source | as written | input that shows it | evidently intended | confidence | as-written member | corrected member |
|---|---|---|---|---|---|---|
| include/jsoncons/json_options.hpp:485-492 | `inf_to_str(value, is_inf_to_str)` names its boolean parameter like the member flag. It sets the flag to true, then assigns the flag from the parameter, and never sets `is_str_to_inf_` | `inf_to_str("Infinity", false)` leaves infinity unsubstituted; `inf_to_str("Infinity", true)` never reads "Infinity" back as infinity | like `nan_to_str`: always write the string, and set `is_str_to_inf_` from the argument | medium, not executed | Options.InfToStrDiffersFromNanToStr | Options.InfToStrIntendedReplaces |
| include/jsoncons/json_options.hpp:513-520 | `neginf_to_str(value, is_neginf_to_str)` has the same shadowing: its flag is set from the argument and `is_str_to_neginf_` is never set | `neginf_to_str("-Infinity", false)` leaves negative infinity without its own string; `neginf_to_str("-Infinity", true)` does not turn on reading it back | always write the string, and set `is_str_to_neginf_` from the argument | medium, not executed | Options.NeginfToStrAsWritten | Options.NeginfToStrIntendedReplaces |
