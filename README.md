# NativeScript plugins: SQLite on iOS, HTTP helpers, NFC records, GUID

This project is a Dafny model of several NativeScript plugins:

- **SQLite data access on iOS** (`packages/nativescript-sqlite/index.ios.ts`). This is the main part. It covers:
  - the statement lifecycle: prepare, bind, step and finalize, each with its normalised error;
  - the cursor that lays out column keys once per statement (`column[i]`);
  - the column-value decoder;
  - `getRaw`, `selectRaw` and `execRaw`;
  - the nested transaction coordinator;
  - the handle returned by `openOrCreate`.

  The native `sqlite3_*` library is modelled as a scripted engine (`SqliteEngine.Engine`). Its fields are:
  - queues of the result codes of prepare, bind, step and finalize;
  - the rows it will produce and the column names;
  - a log of every SQL text passed to prepare;
  - the bindings made;
  - a counter of open statements, and a counter of column-name reads.

  So each operation of the plugin is proved against a specification function of the engine state. The proofs cover:
  - commit and rollback of the outermost transaction;
  - nested cancel being ignored;
  - statement finalization;
  - row order;
  - key layout.
- **HTTP request helpers** (`packages/nativescript-http/common.ts`):
  - the body builders with their default media types;
  - header iteration;
  - the content-summary printer, as a class over its `result` and `indentation` state;
  - the mapping from status code to error class.
- **NFC record conversion**:
  - `nfcIntentHandler.android.ts`: NDEF records to JSON, with UTF-8 decoding, hex text, and stripping of the language code and URI prefix;
  - `index.android.ts`: JSON to NDEF records, UTF-8 encoding, the choice of URI prefix, and the outcomes of writing to a tag;
  - `index.ios.ts`: hex helpers and `recordToJSON`.
- **GUID formatting** (`packages/nativescript-guid/common.ts`): `parseGuid`, which replaces hyphens.

JavaScript strings in the NFC code are sequences of UTF-16 code units (`NfcText.Utf16`). Java bytes are `sbyte`, from -128 to 127.

## Model

| member | source | states |
|---|---|---|
| Decimal.NatToString | packages/nativescript-sqlite/index.ios.ts:292 | the decimal text of a number is non-empty, all digits, and has no leading zero |
| Decimal.IntToString | packages/nativescript-sqlite/index.ios.ts:197 | the decimal text of an integer is non-empty and made of digits and a minus sign only |
| Decimal.IntToStringRoundTrip | packages/nativescript-sqlite/index.ios.ts:292 | reading back the decimal text of any integer gives that integer |
| Decimal.IntToStringInjective | packages/nativescript-sqlite/index.ios.ts:292 | different integers give different decimal texts |
| Guid.ParseGuid | packages/nativescript-guid/common.ts:1-2 | with no separator the GUID comes back unchanged |
| Guid.Split | packages/nativescript-guid/common.ts:2 | `split('-')` gives at least one part, and no part contains a hyphen |
| Guid.JoinSplitReplaces | packages/nativescript-guid/common.ts:2 | splitting on '-' and joining with a separator means replacing every hyphen by that separator and keeping every other character |
| Guid.ParseGuidReplaces | packages/nativescript-guid/common.ts:1-2 | with a separator, `parseGuid` replaces each hyphen (checked against a character-by-character reference definition) |
| Guid.ParseGuidLength | packages/nativescript-guid/common.ts:1-2 | the length grows by (separator length - 1) per hyphen |
| Guid.ParseGuidHyphenIdentity | packages/nativescript-guid/common.ts:1-2 | separator '-' leaves the GUID unchanged |
| Guid.ParseGuidEmptySeparator | packages/nativescript-guid/common.ts:1-2 | the empty separator removes every hyphen, and removes nothing else |
| Guid.ParseGuidSlashSeparator | packages/nativescript-guid/common.ts:1-2 | if the GUID contains a hyphen, the result contains the separator |
| HttpCommon.MakeFileBody | packages/nativescript-http/common.ts:14-21 | a file body keeps its file name; the media type defaults to application/octet-stream |
| HttpCommon.MakeTextBody | packages/nativescript-http/common.ts:28-32 | a text body keeps its text; the media type defaults to text/plain |
| HttpCommon.MakeJsonBody | packages/nativescript-http/common.ts:39-43 | a JSON body keeps its text; the media type defaults to application/json |
| HttpCommon.MakeBytesBody | packages/nativescript-http/common.ts:50-57 | a bytes body keeps its bytes; the media type defaults to application/octet-stream |
| HttpCommon.MakeMultiPartBody | packages/nativescript-http/common.ts:118-125 | a multipart body keeps its parts; the type defaults to multipart/form-data |
| HttpCommon.LoopHeaders | packages/nativescript-http/common.ts:146-159 | the callback runs once per string value and once per array element, in entry order |
| HttpCommon.EmittedAppend | packages/nativescript-http/common.ts:146-159 | iterating over concatenated headers gives the concatenation of the two iterations |
| HttpCommon.EmittedCount | packages/nativescript-http/common.ts:146-159 | the number of callbacks is the total number of header values |
| HttpCommon.EmittedEntry | packages/nativescript-http/common.ts:150-156 | one entry gives (key, value) for a string value, and (key, element i) for element i of an array |
| HttpCommon.Take | packages/nativescript-http/common.ts:171 | truncation to 60 characters gives the prefix of the text, of length at most 60 |
| HttpCommon.HeaderLines | packages/nativescript-http/common.ts:161-174 | one non-empty line per header value, with the indentation, the name and the value truncated to 60 characters |
| HttpCommon.PrintHeaders | packages/nativescript-http/common.ts:161-174 | 'NO HEADERS' when there is no header object or no value; otherwise the header lines joined by newlines |
| HttpCommon.AppendAllJoins | packages/nativescript-http/common.ts:181-185 | appending non-empty lines to an empty result means joining them with newlines |
| HttpCommon.SummaryPrinter.constructor | packages/nativescript-http/common.ts:179-180 | the printer starts with an empty result and no indentation |
| HttpCommon.SummaryPrinter.Append | packages/nativescript-http/common.ts:181-185 | the indented line is appended, preceded by a newline unless the result is empty |
| HttpCommon.SummaryPrinter.Indent | packages/nativescript-http/common.ts:186 | adds four spaces of indentation and leaves the result alone |
| HttpCommon.SummaryPrinter.UnIndent | packages/nativescript-http/common.ts:187 | removes the last four characters of indentation and leaves the result alone |
| HttpCommon.SummaryPrinter.Loop | packages/nativescript-http/common.ts:212-244 | walking a body appends exactly that body's summary lines and restores the indentation |
| HttpCommon.SummaryPrinter.LoopParts | packages/nativescript-http/common.ts:235-237 | walking the parts appends their lines in order and restores the indentation |
| HttpCommon.SummaryPrinter.LoopPart | packages/nativescript-http/common.ts:189-210 | walking a part appends exactly that part's lines and restores the indentation |
| HttpCommon.PrintContentSummary | packages/nativescript-http/common.ts:176-249 | the printed summary is the reference summary of the body ('NO BODY' when there is none) |
| HttpCommon.BodyLinesIndented | packages/nativescript-http/common.ts:212-244 | every line printed for a body starts with the current indentation and goes past it |
| HttpCommon.PartLinesIndented | packages/nativescript-http/common.ts:189-210 | every line printed for a part starts with the current indentation |
| HttpCommon.PartsLinesIndented | packages/nativescript-http/common.ts:235-237 | every line printed for a list of parts starts with the current indentation |
| HttpCommon.SummaryNeverEmpty | packages/nativescript-http/common.ts:176-249 | the summary is never empty; it is 'NO BODY' without a body and the joined body lines otherwise |
| HttpCommon.NestedContentDeeper | packages/nativescript-http/common.ts:195-238 | the parts of a multipart body, and the body of a file or generic part, are printed one indentation level deeper |
| HttpCommon.PartHeadersNotPrinted | packages/nativescript-http/common.ts:202-208 | a generic part prints 'PART: ' and neither its name nor its headers |
| HttpCommon.NoHeadersExactly | packages/nativescript-http/common.ts:161-174 | the headers print as 'NO HEADERS' exactly when there is no header object or no header has a value |
| HttpCommon.HeaderLineNotPlaceholder | packages/nativescript-http/common.ts:171 | every header line has a colon right after the name, so no header line reads 'NO HEADERS' |
| HttpCommon.GetResponseError | packages/nativescript-http/common.ts:306-318 | no error exactly for codes 200-299; 'error.client.<code>' for 400-499; a TransientError 'error.server' exactly for 500 and up; 'error.protocol' otherwise |
| HttpCommon.ResponseErrorByClass | packages/nativescript-http/common.ts:306-318 | the same mapping, stated by status class (informational, successful, redirection, client error, server error) |
| HttpCommon.TransientIsHttpError | packages/nativescript-http/common.ts:291-304 | every error given back is an HttpError, and a TransientError is given back only for server errors |
| NfcText.Utf8Encode | packages/nativescript-nfc/index.android.ts:344-360 | each code unit gives one to three bytes |
| NfcText.EncodeUnit | packages/nativescript-nfc/index.android.ts:347-357 | one code unit encodes to one, two or three byte values, each from 0 to 255 |
| NfcText.EncodeUnitLayout | packages/nativescript-nfc/index.android.ts:348-357 | the byte count is chosen by the thresholds 128 and 2048, with the lead and continuation bit patterns |
| NfcText.Utf8EncodeConcat | packages/nativescript-nfc/index.android.ts:344-360 | encoding a concatenation gives the concatenation of the encodings |
| NfcText.DecodeBytes | packages/nativescript-nfc/nfcIntentHandler.android.ts:148-185 | decoding fails only on a multi-byte sequence truncated at the end |
| NfcText.DecodeEncode | packages/nativescript-nfc/nfcIntentHandler.android.ts:148-185 | the decoding loop inverts the encoder `stringToBytes` of index.android.ts |
| NfcText.DecodeLow8 | packages/nativescript-nfc/nfcIntentHandler.android.ts:161-183 | decoding looks only at the low eight bits of each Java byte |
| NfcText.MaskNeedsHighBit | packages/nativescript-nfc/nfcIntentHandler.android.ts:154-159 | an ASCII byte never matches the 0xEF byte-order-mark test |
| NfcText.DecodeAsciiThenText | packages/nativescript-nfc/nfcIntentHandler.android.ts:148-185 | an ASCII prefix byte followed by encoded text decodes to that unit followed by the text |
| NfcText.Utf8RoundTrip | packages/nativescript-nfc/nfcIntentHandler.android.ts:148-185 | `bytesToString` gives back any text whose encoding does not begin like a byte-order mark |
| NfcText.Utf8RoundTripDropsBom | packages/nativescript-nfc/nfcIntentHandler.android.ts:153-159 | a leading U+FEFF is dropped on decoding |
| NfcText.HexDigit | packages/nativescript-nfc/nfcIntentHandler.android.ts:128-146 | digits 0-9 print as '0'-'9', and 10-15 as lower-case 'a'-'f' |
| NfcText.HexPairRoundTrip | packages/nativescript-nfc/nfcIntentHandler.android.ts:128-146 | the two hex characters of a byte read back as that byte |
| NfcText.HexString | packages/nativescript-nfc/nfcIntentHandler.android.ts:128-146 | two characters per byte |
| NfcText.HexStringAt | packages/nativescript-nfc/nfcIntentHandler.android.ts:128-146 | characters 2i and 2i+1 are the hex pair of the low eight bits of byte i |
| NfcText.HexStringAppend | packages/nativescript-nfc/nfcIntentHandler.android.ts:128-146 | the hex text of a concatenation is the concatenation of the hex texts |
| NfcText.SubstringFrom | packages/nativescript-nfc/nfcIntentHandler.android.ts:245 | `substring(n)` drops the first n units; NaN keeps the whole string |
| NfcIntentHandler.ByteArrayToJSArray | packages/nativescript-nfc/nfcIntentHandler.android.ts:112-118 | the JavaScript array holds the same values as the Java byte array, in order |
| NfcIntentHandler.BytesToHexString | packages/nativescript-nfc/nfcIntentHandler.android.ts:128-146 | the hex text has two lower-case characters per byte, which read back as the byte's unsigned value |
| NfcIntentHandler.BytesToString | packages/nativescript-nfc/nfcIntentHandler.android.ts:148-185 | the loop computes exactly the UTF-8 decoding of the bytes |
| NfcIntentHandler.RecordToJson | packages/nativescript-nfc/nfcIntentHandler.android.ts:238-262 | the conversion succeeds exactly when the payload decodes; the view has the decoded text, the hex text, the id bytes and the payload bytes |
| NfcIntentHandler.TextRecordStripsLanguage | packages/nativescript-nfc/nfcIntentHandler.android.ts:243-245 | a Text record's string drops the status byte and the language code it counts |
| NfcIntentHandler.UriRecordPrefixes | packages/nativescript-nfc/nfcIntentHandler.android.ts:246-251 | a URI record's string is the protocol of its identifier code, then the rest of the text |
| NfcIntentHandler.OtherRecordUnchanged | packages/nativescript-nfc/nfcIntentHandler.android.ts:239-252 | records of any other type keep the full decoded payload |
| NfcIntentHandler.MessageToJson | packages/nativescript-nfc/nfcIntentHandler.android.ts:220-236 | null for no message; otherwise one view per record in order, and null as a whole if any record fails |
| NfcIntentHandler.TechListToJson | packages/nativescript-nfc/nfcIntentHandler.android.ts:187-196 | null exactly when there is no tag; otherwise the tag's tech list |
| NfcIntentHandler.NdefToJson | packages/nativescript-nfc/nfcIntentHandler.android.ts:198-218 | null exactly without an Ndef; the id and tech list are present exactly when there is a tag; without a cached message there is no message, and with one the message is present exactly when every record converts, and then holds each record's view in order |
| NfcAndroid.ToJavaByte | packages/nativescript-nfc/index.android.ts:281-291 | storing a number into a Java byte keeps it when it is in range, and always keeps its low eight bits |
| NfcAndroid.JavaBytes | packages/nativescript-nfc/index.android.ts:288-291 | the byte array holds the narrowed values, element by element |
| NfcAndroid.StringToBytes | packages/nativescript-nfc/index.android.ts:344-360 | the loop computes exactly the UTF-8 encoding of the code units |
| NfcAndroid.IndexOf | packages/nativescript-nfc/index.android.ts:318 | `indexOf` gives the first position holding the value, or -1 when it is absent |
| NfcAndroid.TextRecordsFor | packages/nativescript-nfc/index.android.ts:269-297 | one NDEF record per text record, in order |
| NfcAndroid.UriRecordsFor | packages/nativescript-nfc/index.android.ts:299-340 | one NDEF record per URI record, in order |
| NfcAndroid.CopyToByteArray | packages/nativescript-nfc/index.android.ts:281-291 | a new Java byte array holding the narrowed values |
| NfcAndroid.BuildTextRecord | packages/nativescript-nfc/index.android.ts:271-295 | builds the Text record for the input |
| NfcAndroid.ChoosePrefix | packages/nativescript-nfc/index.android.ts:304-314 | the forEach loop picks the reference prefix of the URI |
| NfcAndroid.BuildUriRecord | packages/nativescript-nfc/index.android.ts:301-338 | builds the URI record for the input |
| NfcAndroid.JsonToNdefRecords | packages/nativescript-nfc/index.android.ts:261-342 | a new array with the text records first and then the URI records, each converted in order |
| NfcAndroid.FillTextRecords | packages/nativescript-nfc/index.android.ts:269-297 | the first loop writes the Text record of each input, in order, from index 0 and changes no later slot |
| NfcAndroid.FillUriRecords | packages/nativescript-nfc/index.android.ts:299-340 | the second loop writes the URI record of each input after the Text records, so the whole array is the Text records followed by the URI records |
| NfcAndroid.RecordsLayout | packages/nativescript-nfc/index.android.ts:262-267 | the record count is the number of text records plus the number of URI records; absent lists count as empty |
| NfcAndroid.TextRecordLayout | packages/nativescript-nfc/index.android.ts:273-293 | a Text record has TNF 1, type 0x54, the id bytes and the payload [language length] + UTF-8(language + text); the language defaults to 'en' |
| NfcAndroid.UriPrefixIsListedPrefix | packages/nativescript-nfc/index.android.ts:304-314 | the chosen prefix is empty, or a listed protocol (not the first entry) that the URI starts with |
| NfcAndroid.FirstMatchChosen | packages/nativescript-nfc/index.android.ts:306-310 | the first matching protocol other than 'urn:' wins, and later matches do not replace it |
| NfcAndroid.NoMatchNoPrefix | packages/nativescript-nfc/index.android.ts:312-314 | when no protocol matches, the prefix is empty |
| NfcAndroid.JavaBytesDecode | packages/nativescript-nfc/index.android.ts:288-291 | narrowing to Java bytes does not change what the payload decodes to |
| NfcAndroid.TextRecordReadsBack | packages/nativescript-nfc/index.android.ts:269-297 | a Text record written by the plugin reads back, through the intent handler, as its text, and as the language followed by the text with the prefix |
| NfcAndroid.UriRecordReadsBack | packages/nativescript-nfc/index.android.ts:299-340 | a URI record written by the plugin reads back, through the intent handler, as the original URI |
| NfcAndroid.CodedPayloadReadsBack | packages/nativescript-nfc/nfcIntentHandler.android.ts:246-251 | a URI payload made of an ASCII identifier code and encoded text reads as the code's protocol followed by the text |
| NfcAndroid.WriteNdefMessage | packages/nativescript-nfc/index.android.ts:222-259 | each error string with its guard; only the Ndef connection is guarded; connect, format and close of a formatable tag, and write and close of an Ndef tag, stop at the first one that throws and end with its exception; null exactly when every operation of the format or write path succeeds |
| NfcIos.Lower | packages/nativescript-nfc/index.ios.ts:229 | `toLowerCase` maps each unit, keeping the length |
| NfcIos.DigitIndex | packages/nativescript-nfc/index.ios.ts:231 | the `indexOf` in '0123456789abcdefgh' is -1 or below 18 |
| NfcIos.HexFoldIsValue | packages/nativescript-nfc/index.ios.ts:223-236 | on hex digits the digit loop computes the hexadecimal value |
| NfcIos.HexFoldPair | packages/nativescript-nfc/index.ios.ts:223-236 | `hexToDec` of the hex pair of a byte is that byte |
| NfcIos.HexToDec | packages/nativescript-nfc/index.ios.ts:223-236 | undefined gives undefined; otherwise the loop's base-16 fold of the digit indices |
| NfcIos.PadHex | packages/nativescript-nfc/index.ios.ts:238-250 | `('00' + x.toString(16)).slice(-2)` is the two-digit lower-case hex of the byte |
| NfcIos.Buf2HexArray | packages/nativescript-nfc/index.ios.ts:245-250 | one two-digit hex string per byte |
| NfcIos.Buf2HexString | packages/nativescript-nfc/index.ios.ts:238-243 | the hex text of the buffer, two characters per byte |
| NfcIos.JoinHexArray | packages/nativescript-nfc/index.ios.ts:238-250 | joining the hex array gives the hex string |
| NfcIos.HexDigitsPrefix | packages/nativescript-nfc/index.ios.ts:260 | the digits `parseInt` reads form a prefix of hex digits |
| NfcIos.Hex2a | packages/nativescript-nfc/index.ios.ts:257-263 | the loop computes the reference pairwise decoding |
| NfcIos.ParsePair | packages/nativescript-nfc/index.ios.ts:260 | `parseInt(pair, 16)` of the hex pair of a byte is that byte |
| NfcIos.Hex2aOfHexString | packages/nativescript-nfc/index.ios.ts:257-279 | `hex2a` inverts `buf2hexString`: one unit per byte, equal to the byte |
| NfcIos.NsdataToAsciiString | packages/nativescript-nfc/index.ios.ts:275-279 | the ASCII string has one unit per payload byte, equal to the byte |
| NfcIos.HexFoldAll | packages/nativescript-nfc/index.ios.ts:281-294 | one value per hex string, in order |
| NfcIos.HexToDecArray | packages/nativescript-nfc/index.ios.ts:281-294 | the nested loops give `hexToDec` of every hex string, in order |
| NfcIos.HexToDecArrayOfBytes | packages/nativescript-nfc/index.ios.ts:270-294 | `hexToDecArray` of `nsdataToHexArray` gives back the bytes |
| NfcIos.PlusOfHexPair | packages/nativescript-nfc/index.ios.ts:200 | unary `+` of a hex pair is its decimal reading, below 100, or NaN |
| NfcIos.ArrayIndexOfKey | packages/nativescript-nfc/index.ios.ts:203 | a hex pair used as a property key names an array index only for a canonical numeral 10-99 |
| NfcIos.RecordToJsonAsWritten | packages/nativescript-nfc/index.ios.ts:193-221 | `recordToJSON` as the program does it: tnf, the type byte, the id and payload bytes, the hex text and a string with one unit per payload byte; records other than Text and URI keep that whole string |
| NfcIos.RecordToJson | packages/nativescript-nfc/index.ios.ts:193-221 | the corrected reading of `recordToJSON`: the same byte fields, and the whole string for records other than Text and URI |
| NfcIos.TextRecordStripsLanguage | packages/nativescript-nfc/index.ios.ts:199-201 | a Text record's string drops the status byte and the language code it counts |
| NfcIos.UriRecordPrefixes | packages/nativescript-nfc/index.ios.ts:202-208 | a URI record's string is the protocol of its identifier code (or '') followed by the payload after the code |
| NfcIos.AsWrittenAgrees | packages/nativescript-nfc/index.ios.ts:193-221 | the code as written agrees on every other field, for other record types, and for Text status bytes below 10 |
| NfcIos.UriAsWrittenLosesPrefix | packages/nativescript-nfc/index.ios.ts:203 | as written, URI identifier codes 1-9 find no protocol |
| NfcIos.UriFindingExample | packages/nativescript-nfc/index.ios.ts:202-208 | the example: 'https://example.com' reads as 'example.com' as written, and as the full URI once corrected |
| NfcIos.TextAsWrittenKeepsPrefix | packages/nativescript-nfc/index.ios.ts:200-201 | as written, a status byte whose hex holds a letter strips nothing |
| NfcIos.TextFindingExample | packages/nativescript-nfc/index.ios.ts:199-201 | the example: 'Hi' with the language 'zh-Hant-TW' keeps the status byte and the language as written, and reads 'Hi' once corrected |
| NfcIos.MessageToJson | packages/nativescript-nfc/index.ios.ts:185-191 | one view per record, in order; each is `recordToJSON` as written, which is what the program returns, or the corrected reading when that is asked for |
| NfcIos.NdefToJson | packages/nativescript-nfc/index.ios.ts:175-183 | null exactly for a null message; otherwise one view per record of the message, in order, as written or corrected like `MessageToJson` |
| SqliteValues.DecodeValue | packages/nativescript-sqlite/index.ios.ts:66-90 | tags 1-5 decode to int64, double, text, blob and null; any other tag fails with 'unknown.type: <tag>' |
| SqliteValues.DecodeValueAsString | packages/nativescript-sqlite/index.ios.ts:44-63 | integers, floats and text come back as text; blob and null as they are; an unknown tag fails |
| SqliteValues.DecodeKeepsTag | packages/nativescript-sqlite/index.ios.ts:66-90 | the kind of a decoded value gives back its column type |
| SqliteValues.DecodersAgree | packages/nativescript-sqlite/index.ios.ts:44-90 | the two decoders fail on the same tags, and agree except on integers and floats |
| SqliteValues.UnknownTypeNamesTag | packages/nativescript-sqlite/index.ios.ts:88 | the 'unknown.type' error identifies the tag |
| SqliteValues.Message | packages/nativescript-sqlite/index.ios.ts:193-198 | a normalised message starts with its context prefix; any other error keeps its own message |
| SqliteValues.MessageNamesCode | packages/nativescript-sqlite/index.ios.ts:195-198 | two normalised errors with the same prefix and the same message have the same code, whatever the engine's descriptions |
| SqliteStatement.PrepareSpec | packages/nativescript-sqlite/index.ios.ts:148-155 | success exactly on code 0; any other code throws 'prepareStatement: <code>'; the SQL is logged in both cases |
| SqliteStatement.FinalizeSpec | packages/nativescript-sqlite/index.ios.ts:186-191 | the statement is released in every case; a non-zero code throws 'finalize: <code>' |
| SqliteStatement.StepSpec | packages/nativescript-sqlite/index.ios.ts:157-164 | codes 0, 100 and 101 come back; any other code finalizes, then throws 'step: <code>', or the finalize error if that fails |
| SqliteStatement.StepEffect | packages/nativescript-sqlite/index.ios.ts:157-164 | a step leaves the log and the other queues alone, and releases the statement exactly when it fails |
| SqliteStatement.BindingsFrom | packages/nativescript-sqlite/index.ios.ts:169-184 | parameter i is bound at position i + 1, as text or as null |
| SqliteStatement.BindEffect | packages/nativescript-sqlite/index.ios.ts:169-184 | success binds all the parameters in order; failure releases the statement and throws 'bind: <code>' or the finalize error |
| SqliteStatement.PrepareStatement | packages/nativescript-sqlite/index.ios.ts:148-155 | the engine call and the outcome follow the prepare specification |
| SqliteStatement.Finalize | packages/nativescript-sqlite/index.ios.ts:186-191 | follows the finalize specification |
| SqliteStatement.Step | packages/nativescript-sqlite/index.ios.ts:157-164 | follows the step specification |
| SqliteStatement.Bind | packages/nativescript-sqlite/index.ios.ts:169-184 | the forEach loop follows the bind specification, stopping at the first failure |
| SqliteStatement.ColumnLayout | packages/nativescript-sqlite/index.ios.ts:100-109 | one key per column laid out |
| SqliteStatement.ColumnsSpec | packages/nativescript-sqlite/index.ios.ts:92-113 | the first call builds the cursor; a built cursor gives back its cached count and touches nothing |
| SqliteStatement.ColumnsBuiltOnce | packages/nativescript-sqlite/index.ios.ts:92-113 | after one call every later call, in either mode, is answered from the cache; the first call reads each column name once in object mode, and none otherwise |
| SqliteStatement.ColumnLayoutKeys | packages/nativescript-sqlite/index.ios.ts:100-109 | key i is the engine's name unless it is empty or an earlier key, and then 'column[i]'; earlier keys are not changed |
| SqliteStatement.DistinctNamesKept | packages/nativescript-sqlite/index.ios.ts:100-109 | distinct non-empty column names are kept as the keys |
| SqliteStatement.LabelsCanCollide | packages/nativescript-sqlite/index.ios.ts:104-106 | a name equal to a generated 'column[i]' label is kept, so two keys can be equal |
| SqliteStatement.Cursor.constructor | packages/nativescript-sqlite/index.ios.ts:36-42 | a new cursor is unbuilt, with no columns |
| SqliteStatement.Cursor.GetColumns | packages/nativescript-sqlite/index.ios.ts:92-113 | the in-place update of the cursor and the count follow the column specification |
| SqliteStatement.DecodeColumns | packages/nativescript-sqlite/index.ios.ts:66-137 | on success, one value per column, each the decoding of its cell; a failure is the decoder's thrown error |
| SqliteStatement.DecodeColumnsKnown | packages/nativescript-sqlite/index.ios.ts:66-90 | when every column has a known type, decoding the row succeeds |
| SqliteStatement.DecodeColumnsFirstError | packages/nativescript-sqlite/index.ios.ts:87-123 | the error of a row is the one of its first column with an unknown type |
| SqliteStatement.FieldsLastWins | packages/nativescript-sqlite/index.ios.ts:121-123 | in the object, each key holds the value of the last column with that key |
| SqliteStatement.DecodeObjectRow | packages/nativescript-sqlite/index.ios.ts:120-124 | the loop builds the object of the row specification |
| SqliteStatement.DecodeArrayRow | packages/nativescript-sqlite/index.ios.ts:132-136 | the loop builds the array of the row specification |
| SqliteStatement.ResultsSpec | packages/nativescript-sqlite/index.ios.ts:115-137 | the cursor ends built; only the column-name counter changes; a failure is a thrown decode error |
| SqliteStatement.GetResultsAsObject | packages/nativescript-sqlite/index.ios.ts:115-125 | null when there are no columns, otherwise the object row, following the results specification |
| SqliteStatement.GetResultsAsArray | packages/nativescript-sqlite/index.ios.ts:127-137 | null when there are no columns, otherwise the array row, following the results specification |
| SqliteStatement.GetRaw | packages/nativescript-sqlite/index.ios.ts:200-216 | prepare, bind, one step, decode on a row, then finalize, following its specification |
| SqliteStatement.SelectRaw | packages/nativescript-sqlite/index.ios.ts:218-242 | the `while (true)` loop steps until a non-row code, collects the decoded rows in either mode, then finalizes, following the selectRaw specification (whose row order `SelectRawInOrder` gives) |
| SqliteStatement.ExecRaw | packages/nativescript-sqlite/index.ios.ts:244-249 | prepare, bind, one step and finalize, following its specification |
| SqliteStatement.GetRawAccounting | packages/nativescript-sqlite/index.ios.ts:200-216 | the query is logged; every path releases the statement except a decode error after a row, which leaves it open |
| SqliteStatement.GetRawReadsFirstRow | packages/nativescript-sqlite/index.ios.ts:200-216 | a row comes back exactly when the first step reports one and the statement has columns; it is the first row, under the cursor's keys |
| SqliteStatement.DecodeColumnsCurrent | packages/nativescript-sqlite/index.ios.ts:115-137 | decoding reads only the current row |
| SqliteStatement.DecodedRow | packages/nativescript-sqlite/index.ios.ts:127-137 | the decoded values of one row, one per column |
| SqliteStatement.SelectedRows | packages/nativescript-sqlite/index.ios.ts:218-242 | the first k rows decoded in order, as arrays or as objects under the cursor's keys; none when there are no columns |
| SqliteStatement.SelectLoopStep | packages/nativescript-sqlite/index.ios.ts:228-234 | in either mode, one row step of the loop builds the cursor if needed, appends the decoded row and continues with the rest of the script |
| SqliteStatement.SelectLoopInOrder | packages/nativescript-sqlite/index.ios.ts:227-237 | in either mode, k rows and then a completion code give exactly those k rows, in order, under the keys of the cursor built on the first row |
| SqliteStatement.SelectRawInOrder | packages/nativescript-sqlite/index.ios.ts:218-242 | on an open connection without errors, `select` and `selectArray` give every row in order (objects under the column layout of the engine's names), release their statement and log the query once |
| SqliteStatement.SelectObjectsByName | packages/nativescript-sqlite/index.ios.ts:100-124 | with distinct non-empty column names, row i of `select` maps each column's name to that column's value in the i-th row |
| SqliteStatement.SelectLoopEffect | packages/nativescript-sqlite/index.ios.ts:227-237 | the loop leaves the log and the prepare and bind queues alone, and releases the statement exactly on a step error |
| SqliteStatement.ExecRawEffect | packages/nativescript-sqlite/index.ios.ts:244-249 | the query is logged; the statement is never left open; errors are normalised; on a clean connection an accepted step makes execute succeed; a closed handle fails at prepare |
| SqliteDatabase.VersionQuery | packages/nativescript-sqlite/index.ios.ts:291-294 | the query is 'PRAGMA user_version=' followed by the number |
| SqliteDatabase.VersionQueryInjective | packages/nativescript-sqlite/index.ios.ts:291-294 | different versions give different queries |
| SqliteDatabase.VersionOf | packages/nativescript-sqlite/index.ios.ts:295-299 | the first column of the row, null without a row, and the error of a failure |
| SqliteDatabase.GetVersionReadsFirstColumn | packages/nativescript-sqlite/index.ios.ts:295-299 | on a clean connection an integer first column is the version, and a step with no row gives null |
| SqliteDatabase.CatchSpec | packages/nativescript-sqlite/index.ios.ts:271-276 | the catch always rethrows; a nested call neither runs SQL nor changes the error |
| SqliteDatabase.HealthyExec | packages/nativescript-sqlite/index.ios.ts:244-249 | on a healthy connection execute succeeds, logs its SQL and stays healthy |
| SqliteDatabase.HealthySteps | packages/nativescript-sqlite/index.ios.ts:264 | an action runs exactly its statements, fails exactly when a step throws, with that message, and is cancelled exactly when its own cancel runs |
| SqliteDatabase.HealthyStep | packages/nativescript-sqlite/index.ios.ts:264 | the same facts for a single step of an action |
| SqliteDatabase.HealthyNested | packages/nativescript-sqlite/index.ios.ts:251-277 | a nested transaction runs only its action's statements, returns its result or rethrows, and ignores its cancel |
| SqliteDatabase.HealthyOutermost | packages/nativescript-sqlite/index.ios.ts:251-277 | the outermost transaction logs BEGIN EXCLUSIVE, then the statements, then ROLLBACK if the action threw or cancelled and COMMIT otherwise; a throw is rethrown unchanged |
| SqliteDatabase.ExecExtends | packages/nativescript-sqlite/index.ios.ts:244-249 | execute appends exactly its SQL to the log |
| SqliteDatabase.StepsExtend | packages/nativescript-sqlite/index.ios.ts:264 | running an action only appends to the log |
| SqliteDatabase.StepExtends | packages/nativescript-sqlite/index.ios.ts:264 | running a step only appends to the log |
| SqliteDatabase.NestedExtends | packages/nativescript-sqlite/index.ios.ts:251-277 | a nested transaction only appends to the log |
| SqliteDatabase.OutermostBrackets | packages/nativescript-sqlite/index.ios.ts:251-277 | whatever the engine reports, the outermost transaction starts with BEGIN and ends with ROLLBACK on failure, and with COMMIT or ROLLBACK by the cancel flag on success |
| SqliteDatabase.NestedCancelIgnored | packages/nativescript-sqlite/index.ios.ts:259-270 | calling cancel at the end of a nested action changes nothing |
| SqliteDatabase.StepsAppendCancel | packages/nativescript-sqlite/index.ios.ts:259-264 | a trailing cancel sets the flag and changes nothing else |
| SqliteDatabase.CancelBox.constructor | packages/nativescript-sqlite/index.ios.ts:259 | the cancel flag starts false |
| SqliteDatabase.Database.constructor | packages/nativescript-sqlite/index.ios.ts:280-282 | a new handle is open and not in a transaction |
| SqliteDatabase.Database.IsOpen | packages/nativescript-sqlite/index.ios.ts:284 | reports the open flag |
| SqliteDatabase.Database.Close | packages/nativescript-sqlite/index.ios.ts:285-290 | closes the native handle once; closing again changes nothing |
| SqliteDatabase.Database.SetVersion | packages/nativescript-sqlite/index.ios.ts:291-294 | executes 'PRAGMA user_version=<n>' |
| SqliteDatabase.Database.GetVersion | packages/nativescript-sqlite/index.ios.ts:295-299 | runs 'PRAGMA user_version' as an array query and gives back the first column |
| SqliteDatabase.Database.Execute | packages/nativescript-sqlite/index.ios.ts:300 | follows the execRaw specification |
| SqliteDatabase.Database.Get | packages/nativescript-sqlite/index.ios.ts:301-302 | follows the getRaw specification in object mode |
| SqliteDatabase.Database.GetArray | packages/nativescript-sqlite/index.ios.ts:303-304 | follows the getRaw specification in array mode |
| SqliteDatabase.Database.Select | packages/nativescript-sqlite/index.ios.ts:305-306 | follows the selectRaw specification in object mode, so the rows come in order under the cursor's keys |
| SqliteDatabase.Database.SelectArray | packages/nativescript-sqlite/index.ios.ts:307-308 | follows the selectRaw specification in array mode |
| SqliteDatabase.Database.Transaction | packages/nativescript-sqlite/index.ios.ts:309-322 | outermost exactly when no transaction is running; the in-transaction flag is restored on every exit, including a throw |
| SqliteDatabase.Database.Catch | packages/nativescript-sqlite/index.ios.ts:271-276 | follows the catch specification |
| SqliteDatabase.Database.TransactionRaw | packages/nativescript-sqlite/index.ios.ts:251-277 | follows the transactionRaw specification |
| SqliteDatabase.Database.RunSteps | packages/nativescript-sqlite/index.ios.ts:264 | running the action's steps in order follows the steps specification, including the cancel flag |
| SqliteDatabase.Database.RunOne | packages/nativescript-sqlite/index.ios.ts:264 | one step follows the step specification |
| SqliteDatabase.OpenOrCreate | packages/nativescript-sqlite/index.ios.ts:279-282 | a handle exactly when open reports 0, new, open and not in a transaction; otherwise 'open: <code>' |

## Left out

- The native libraries (sqlite3, Foundation, CoreNFC, android.nfc) are not modelled. The SQLite engine is a scripted state, and the other libraries are inputs.
- `sqlite3_errstr` is not modelled. An error keeps its prefix and code, and `SqliteValues.Message` takes the error-string function as a parameter.
- `paramsToStringArray` and `throwError` live in `packages/nativescript-sqlite/common.ts`, which is not part of this model. Parameters are given already converted: null or text. An absent parameter list is the empty list.
- `toCharPtr`, the flags of `sqlite3_open_v2`, `iosProperty` and the file path are not modelled. `OpenOrCreate` takes the code that open reports.
- SqliteEngine.PrepareCall: the code SQLITE_MISUSE (21) after close is an assumption about the native library: sqlite3_close_v2 sets the handle to null, and the model treats that as misuse.
- A `cancel` callback of an outer scope called inside a nested action is not modelled. In `Cancel`, the callback is always the innermost action's. Actions are limited to execute, nested transaction, cancel and throw. Their result is an integer.
- A decode error of `getRaw` or `selectRaw` after a row leaves the statement unfinalized. This is the code as written. The model keeps it, and `GetRawAccounting` states it.
- The model follows the code as written on these points:
  - a failing finalize inside step, bind or catch replaces the original error;
  - an error thrown in a transaction is rethrown as it is, not wrapped.
- SqliteStatement.RowOf: an object row is a map from key to value, so the model does not keep the order of the keys in the JavaScript object.
- Values are unbounded in the model. JavaScript numbers are modelled as integers: int64 columns read through a JavaScript number lose precision above 2^53, and doubles are uninterpreted values.
- `byteArrayToJSON` (nfcIntentHandler.android.ts:120-126) returns JSON text. `NfcIntentHandler.RecordToJson` gives the payload as its values.
- `hexToDecArray` returns `JSON.stringify` of its array. `NfcIos.HexToDecArray` returns the array itself. Likewise `JSON.stringify` in the HTTP JSON body is taken as given text.
- `NfcUriProtocols` is a parameter, since its table lives outside the modelled files.
- `buf2hexArrayNr` (index.ios.ts:252-255) is never called, so it is not modelled.
- NfcIos.Lower: `toLowerCase` is modelled for ASCII only. Hex text is ASCII.
- The NFC session, intent, permission and listener code is not modelled, nor the Android tag I/O. `WriteNdefMessage` takes the tag's capabilities and the set of tag operations that throw as inputs, and returns the operations it performs. The exception itself is named by the operation that threw, not by its message.
- HTTP: the 'default' body case of `printContentSummary` needs a body outside the union, so it is not modelled. `Object.entries` order is the order of the header list. Text length counts Dafny characters, not UTF-16 units.
- `console.log` in `printContentSummary` and in the NFC handlers is output only, and is left out.

## Findings

| source | as written | input that shows it | evidently intended | confidence | as-written member | corrected member |
|---|---|---|---|---|---|---|
| packages/nativescript-nfc/index.ios.ts:203 | `NfcUriProtocols[payloadAsHexArray[0]]` indexes the protocol list with the identifier code's two-digit hex text, so codes below 16 (hex '01'..'0f') and codes whose hex text holds a letter (0x1a, say) name no element, and the other codes of 16 and up name the element at their hex text read as decimal, which is the wrong one | a URI record with payload [4] + 'example.com' reads as 'example.com' | the protocol at the code's numeric value: 'https://example.com', as the Android handler does | not executed | NfcIos.RecordToJsonAsWritten, NfcIos.UriAsWrittenLosesPrefix, NfcIos.UriFindingExample | NfcIos.RecordToJson |
| packages/nativescript-nfc/index.ios.ts:200 | `+payloadAsHexArray[0]` reads the Text status byte's hex text as a decimal number, giving NaN for a letter digit and the wrong length from 16 on | a Text record 'Hi' with the 10-unit language 'zh-Hant-TW' (status byte 0x0a) keeps its whole payload | strip the status byte and the language code it counts: 'Hi' | not executed | NfcIos.RecordToJsonAsWritten, NfcIos.TextAsWrittenKeepsPrefix, NfcIos.TextFindingExample | NfcIos.RecordToJson |

`NfcIos.MessageToJson` and `NfcIos.NdefToJson` return the as-written views, as the program does, and the corrected views when their `intended` flag is set.
