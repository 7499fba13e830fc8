# protod, modelled in Dafny

protod recovers `.proto` source files from a compiled binary. It finds the
serialized `FileDescriptorProto` records in the binary and prints each one
back as proto2 text. This project models the three pieces of logic that do
the work, and proves properties of each:

- **`Kmp`** (`kmp.dfy`) models `ByteArray.occurrencesOf`, the Knuth-Morris-Pratt
  byte search.
  - The failure table is built in an `array<int>` and the haystack is
    scanned once.
  - Both are proved to produce exactly the ascending, possibly overlapping
    offsets at which the pattern occurs.
  - The table-building loop is also modelled as written. Its fall-back reads
    `resultTable[matches]` instead of `resultTable[matches - 1]`.
  - The scan is modelled over any table, so the search as written (the
    as-written table, then the scan) is a method of its own.
  - That version is proved to terminate and to find exactly the occurrences
    whenever the first pattern byte does not recur, which includes `.proto`.
    It is proved non-terminating or wrong on concrete inputs (see Findings).
- **`Varint`** (`varint.dfy`) is the base-128 varint and tag reader of
  `CodedInputStream`, with its encoder and a round-trip proof.
- **`Locator`** (`locator.dfy`) is the anchor loop of `main`. For every
  occurrence of `.proto`:
  - it walks backwards for a varint length equal to `offset + 5`;
  - it checks that the tag in front of that length is 10 (field 1,
    length-delimited);
  - it parses with a shrinking window.
  `FileDescriptorProto.parseFrom` is a function parameter that either yields
  a record or fails after reading part of its window.
- **`Linker`** (`linker.dfy`) is the worklist fixpoint that builds file
  descriptors once all their imports have been built.
  `Descriptors.FileDescriptor.buildFrom` is a function parameter.
- **`ProtoText`** (`prototext.dfy`) gives the text the writer emits, as
  functions from descriptors to lines. It also holds the lemmas about that
  text:
  - indentation;
  - block structure;
  - the order of imports, options and fields;
  - the decimal rendering of numbers;
  - the `fieldLabels`/`fieldTypes` tables;
  - when printing fails.
- **`Writer`** (`protowriter.dfy`) holds the class `ProtoWriter`. Its fields
  are `first`, `indentLevel` and the lines written so far. Each print method
  is proved to append exactly the lines the `ProtoText` functions give and to
  leave `first`/`indentLevel` as those functions say. A method that returns
  `false` stands for the exception (`checkNotNull`, `single`, `TODO()`,
  a parse failure) that ends printing.
- **`Descriptors`** (`descriptors.dfy`) holds the descriptor messages as
  datatypes. **`Bytes`** (`bytes.dfy`) holds bytes and `Option`.

## Model

| member | source | states |
|---|---|---|
| Varint.DecodeBounded | src/main/kotlin/com/valaphee/protod/Main.kt:34 | a decoded varint used at least one byte, and no more than the window's budget or the input holds |
| Varint.ReadRawVarint32 | src/main/kotlin/com/valaphee/protod/Main.kt:34 | `readRawVarint32` on a window consumes 1 to 10 bytes of it |
| Varint.Int32 | src/main/kotlin/com/valaphee/protod/Main.kt:34 | the decoded value cast to a Kotlin `Int` lies in the signed 32-bit range |
| Varint.Int32Congruent | src/main/kotlin/com/valaphee/protod/Main.kt:34 | that cast keeps the value modulo 2^32 (two's-complement truncation) |
| Varint.DecodeEncode | src/main/kotlin/com/valaphee/protod/Main.kt:34 | decoding the base-128 encoding of any n, followed by anything, gives back n and the encoding's length |
| Varint.ReadEncoded | src/main/kotlin/com/valaphee/protod/Main.kt:34-35 | a length below 2^31 written as a varint is read back unchanged by `readRawVarint32`, from at most 5 bytes |
| Varint.ReadTagFieldNonZero | src/main/kotlin/com/valaphee/protod/Main.kt:38 | a tag that `readTag` accepts from non-empty input never has field number 0 |
| Varint.ReadTagEncoded | src/main/kotlin/com/valaphee/protod/Main.kt:38 | round trip: a written tag below 2^31 is read back unchanged, except that tags below 8 (field 0) are rejected |
| Varint.NameTag | src/main/kotlin/com/valaphee/protod/Main.kt:38 | tag 10 is field 1 with wire type 2 (length-delimited), encoded as the single byte 0x0A and read back as 10 |
| Kmp.OccurrencesSpec | src/main/kotlin/com/valaphee/protod/util/KnuthMorrisPratt.kt:19-46 | the reference result contains k exactly when the pattern is non-empty and occurs at k; every k is within `0..size - pattern.size`; the result is strictly increasing; it is empty for an empty haystack or pattern |
| Kmp.OccurrencesUpToSpec | src/main/kotlin/com/valaphee/protod/util/KnuthMorrisPratt.kt:34-43 | after the first n haystack bytes, the offsets reported are exactly the matches ending within those n bytes, ascending |
| Kmp.IndicesOfAreOccurrences | src/main/kotlin/com/valaphee/protod/util/KnuthMorrisPratt.kt:21 | for a one-byte pattern, filtering the indices whose byte equals it gives exactly the occurrences |
| Kmp.BuildTable | src/main/kotlin/com/valaphee/protod/util/KnuthMorrisPratt.kt:23-29 | the table built with the standard fall-back `t[m-1]` is the prefix function: each entry is the longest proper border of that prefix |
| Kmp.TableFallBack | src/main/kotlin/com/valaphee/protod/util/KnuthMorrisPratt.kt:26 | the corrected fall-back loop ends on the longest border of the prefix that can be extended by the next byte, or at 0 |
| Kmp.FallbackAsWritten | src/main/kotlin/com/valaphee/protod/util/KnuthMorrisPratt.kt:26 | the as-written fall-back, when it ends, settles on a length no larger than its start, at 0 or where the bytes agree |
| Kmp.BuildTableAsWritten | src/main/kotlin/com/valaphee/protod/util/KnuthMorrisPratt.kt:23-29 | the as-written build loop gets stuck exactly when the table function has no result, and otherwise fills the array with that table |
| Kmp.TableAsWrittenBounds | src/main/kotlin/com/valaphee/protod/util/KnuthMorrisPratt.kt:23-29 | when the as-written build ends, the table has the pattern's length, entry 0 is 0 and every entry i lies in `0..i` |
| Kmp.UniqueFirstBytePrefixFunction | src/main/kotlin/com/valaphee/protod/util/KnuthMorrisPratt.kt:24-29 | if the first byte never recurs in the pattern, the all-zero table is the true prefix function |
| Kmp.TableAsWrittenUniqueFirstByte | src/main/kotlin/com/valaphee/protod/util/KnuthMorrisPratt.kt:24-29 | in that case the as-written loop never leaves 0, ends with the all-zero table, and that table is correct |
| Kmp.ProtoSuffixTable | src/main/kotlin/com/valaphee/protod/util/KnuthMorrisPratt.kt:23-29 | for ".proto" the as-written build ends with six zeros, which is the correct prefix function |
| Kmp.TableAsWrittenDivergesOnAab | src/main/kotlin/com/valaphee/protod/util/KnuthMorrisPratt.kt:26 | the as-written build never terminates on "aab" |
| Kmp.TableAsWrittenWrongOnAbabb | src/main/kotlin/com/valaphee/protod/util/KnuthMorrisPratt.kt:26 | on "ababb" the as-written build ends with [0,0,1,2,2], which is not the prefix function |
| Kmp.ScanFallback | src/main/kotlin/com/valaphee/protod/util/KnuthMorrisPratt.kt:35 | the search's fall-back over any table whose entries are bounded ends at or below where it started |
| Kmp.ScanFallbackLongest | src/main/kotlin/com/valaphee/protod/util/KnuthMorrisPratt.kt:35 | with a prefix function, the fall-back ends on the longest partial match that the current byte can extend, or at 0 |
| Kmp.SearchStep | src/main/kotlin/com/valaphee/protod/util/KnuthMorrisPratt.kt:35-42 | one haystack byte keeps the match count equal to the longest partial match; it reports an offset exactly when a full match ends there, and resets to `t[size-1]` so overlapping matches are kept |
| Kmp.Search | src/main/kotlin/com/valaphee/protod/util/KnuthMorrisPratt.kt:31-45 | the generator's loops, run over any table with bounded entries, yield exactly what `Scan` describes |
| Kmp.ScanFindsRest | src/main/kotlin/com/valaphee/protod/util/KnuthMorrisPratt.kt:34-43 | with a prefix function and the longest partial match at position i, the offsets still to come are exactly the occurrences ending after i |
| Kmp.ScanStep | src/main/kotlin/com/valaphee/protod/util/KnuthMorrisPratt.kt:35-42 | one byte of the scan over a prefix function keeps the longest partial match, and what it yields is exactly the occurrence ending at that byte |
| Kmp.ScanFindsOccurrences | src/main/kotlin/com/valaphee/protod/util/KnuthMorrisPratt.kt:31-45 | driven by a prefix function, the scan yields exactly the occurrences of the pattern, in ascending order |
| Kmp.OccurrencesOf | src/main/kotlin/com/valaphee/protod/util/KnuthMorrisPratt.kt:19-46 | the corrected search (table with `t[m-1]`) returns exactly the ascending occurrences, including the empty and one-byte shortcuts |
| Kmp.OccurrencesOfAsWritten | src/main/kotlin/com/valaphee/protod/util/KnuthMorrisPratt.kt:19-46 | the search as written gets stuck exactly when its table loop never ends, otherwise returns what `SourceOccurrences` describes; when the first byte does not recur it terminates with exactly the occurrences |
| Kmp.SourceOccurrencesUniqueFirstByte | src/main/kotlin/com/valaphee/protod/util/KnuthMorrisPratt.kt:19-46 | when the pattern's first byte does not recur, the source's result is exactly the occurrences |
| Kmp.SourceFalseMatchOnAbabb | src/main/kotlin/com/valaphee/protod/util/KnuthMorrisPratt.kt:26 | with the as-written table, searching "ababbabb" for "ababb" yields [0, 3], and "ababb" does not occur at 3 |
| Locator.Shrink | src/main/kotlin/com/valaphee/protod/Main.kt:39-49 | when the shrink loop yields a record, it is the parse of a window starting at `begin` no larger than the first window |
| Locator.ShrinkWindow | src/main/kotlin/com/valaphee/protod/Main.kt:39-49 | the loop starting from the window `bytes.size - begin` ends with the outcome `Shrink` describes |
| Locator.TryFrame | src/main/kotlin/com/valaphee/protod/Main.kt:36-51 | the tag check and shrink loop for a candidate `begin` behave as `FrameAt` says |
| Locator.FrameStop | src/main/kotlin/com/valaphee/protod/Main.kt:38 | a candidate ends the walk without a record exactly when a tag is read at `begin` and it is not 10 |
| Locator.TryStep | src/main/kotlin/com/valaphee/protod/Main.kt:33-54 | one iteration of the backward walk at a given offset behaves as `StepAt` says |
| Locator.StepFoundSound | src/main/kotlin/com/valaphee/protod/Main.kt:34-43 | a step yields a record only if the varint `offset` bytes before the anchor equals `offset + 5`, `begin` is `anchor - offset - 1`, the tag there is 10, and the record is the parse of a window from `begin` |
| Locator.StepStopCases | src/main/kotlin/com/valaphee/protod/Main.kt:35-52 | a step ends the walk without a record exactly when the varint can be read and either matches but the tag is not 10, or does not match and the byte at `anchor - offset` is an ISO control character |
| Locator.LocateAt | src/main/kotlin/com/valaphee/protod/Main.kt:31-56 | the backward walk for one anchor ends with the outcome `Walk` describes |
| Locator.WalkRecordSound | src/main/kotlin/com/valaphee/protod/Main.kt:31-56 | every record the walk yields satisfies the acceptance conditions above, at `offset = anchor - begin - 1` |
| Locator.WalkDiverges | src/main/kotlin/com/valaphee/protod/Main.kt:31-56 | the walk runs forever exactly when every offset just continues (an exception or a non-control byte) |
| Locator.CollectSpec | src/main/kotlin/com/valaphee/protod/Main.kt:30-57 | each anchor adds at most one record, which is its walk's record; records keep anchor order when anchors ascend; the loop diverges exactly when some anchor's walk does |
| Locator.LocateAll | src/main/kotlin/com/valaphee/protod/Main.kt:30-57 | the loop over anchors gives the records and the divergence flag of `LocateAllSpec` |
| Locator.LocateAllSound | src/main/kotlin/com/valaphee/protod/Main.kt:30-57 | there are no more records than anchors, and every record was accepted at its own anchor |
| Locator.FindDescriptors | src/main/kotlin/com/valaphee/protod/Main.kt:30-57 | the anchors, found by the search as written, are exactly the occurrences of ".proto" in the blob, and the result is the anchor loop over them |
| Linker.Visit | src/main/kotlin/com/valaphee/protod/Main.kt:67-77 | a record is inserted exactly when all its dependencies have descriptors and its build succeeds; the map then gains its descriptor under its name and the record is appended, otherwise nothing changes; the dependency order is kept |
| Linker.Pass | src/main/kotlin/com/valaphee/protod/Main.kt:63-78 | one sweep keeps every record either inserted or still listed; `changed` holds exactly when the worklist shrank; after a sweep that changed nothing, every record left is blocked |
| Linker.Link | src/main/kotlin/com/valaphee/protod/Main.kt:59-79 | the records are split between inserted and left over; the map's keys are the inserted names; each inserted record's imports were inserted before it; every left-over record is blocked; at most n+1 passes, and at least one for a non-empty list |
| Linker.InsertKeepsOrder | src/main/kotlin/com/valaphee/protod/Main.kt:68-72 | appending a record whose dependencies are all keys keeps the insertion order topological |
| Linker.InsertedDependenciesLocated | src/main/kotlin/com/valaphee/protod/Main.kt:68-72 | every dependency of an inserted record names a located record |
| ProtoText.Indent | src/main/kotlin/com/valaphee/protod/ProtoWriter.kt:46 | the indentation for level n is 2n characters |
| ProtoText.IndentSpaces | src/main/kotlin/com/valaphee/protod/ProtoWriter.kt:45-53 | every one of those characters is a space |
| ProtoText.LineIndented | src/main/kotlin/com/valaphee/protod/ProtoWriter.kt:45-53 | every printed line, blank ones included, starts with its level's indentation; it reads as one level deeper exactly when the text itself starts with two spaces |
| ProtoText.DigitsAreDigits | src/main/kotlin/com/valaphee/protod/ProtoWriter.kt:88 | the decimal rendering of a natural number uses only the digits 0-9 |
| ProtoText.DigitsRoundTrip | src/main/kotlin/com/valaphee/protod/ProtoWriter.kt:88 | reading those digits back gives the number |
| ProtoText.DecimalRoundTrip | src/main/kotlin/com/valaphee/protod/ProtoWriter.kt:88 | the rendering of any integer, sign included, reads back as that integer |
| ProtoText.Open | src/main/kotlin/com/valaphee/protod/ProtoWriter.kt:56 | a section prints a blank line exactly when it is non-empty and `first` is unset; a non-empty section clears `first` |
| ProtoText.ImportsText | src/main/kotlin/com/valaphee/protod/ProtoWriter.kt:55-58 | the imports section never fails and leaves `first` set only when it was set and there are no imports |
| ProtoText.ImportLinesInOrder | src/main/kotlin/com/valaphee/protod/ProtoWriter.kt:57 | line i is `import "<dep i>";`, one per dependency, in list order |
| ProtoText.KnownLinesInOrder | src/main/kotlin/com/valaphee/protod/ProtoWriter.kt:62-67 | line i is `option <name> = <value>;` for the i-th set option field, with strings quoted |
| ProtoText.ExtensionValue | src/main/kotlin/com/valaphee/protod/ProtoWriter.kt:69 | the value fails (`TODO()`) exactly when the field has no varint, fixed32, fixed64 or length-delimited value, and a varint value takes precedence |
| ProtoText.SingleSpec | src/main/kotlin/com/valaphee/protod/ProtoWriter.kt:69 | `single` succeeds exactly when one field carries the number, and then yields that field |
| ProtoText.AssignmentLinesOk | src/main/kotlin/com/valaphee/protod/ProtoWriter.kt:69 | the assignments of one extension payload print without failing exactly when every entry names a single field and has a value |
| ProtoText.UnresolvedSkipped | src/main/kotlin/com/valaphee/protod/ProtoWriter.kt:68-69 | unknown fields with no registered extension, or whose extension type is not a known message, print nothing and do not fail |
| ProtoText.OptionsText | src/main/kotlin/com/valaphee/protod/ProtoWriter.kt:60-70 | the options section leaves `first` set only when it was set and there are neither set nor unknown fields |
| ProtoText.LabelOf | src/main/kotlin/com/valaphee/protod/ProtoWriter.kt:88 | the label getter always yields one of the three labels, and the stored one when it is valid |
| ProtoText.TypeOf | src/main/kotlin/com/valaphee/protod/ProtoWriter.kt:88 | the type getter always yields one of the 18 types, and the stored one when it is valid |
| ProtoText.FieldTables | src/main/kotlin/com/valaphee/protod/ProtoWriter.kt:121-143 | the label table covers exactly labels 1-3, so every label the getter yields; the type table covers exactly the 15 scalar types (all but group, message and enum) |
| ProtoText.FieldTextFails | src/main/kotlin/com/valaphee/protod/ProtoWriter.kt:88 | a field line fails `checkNotNull` exactly when it has no type name and its type is group, message or enum; the label lookup never fails |
| ProtoText.FieldLines | src/main/kotlin/com/valaphee/protod/ProtoWriter.kt:88 | the field lines never outnumber the fields, and when printing succeeds there is one line per field |
| ProtoText.FieldLinesOk | src/main/kotlin/com/valaphee/protod/ProtoWriter.kt:88 | the fields print without failing exactly when every field without a type name has a scalar type |
| ProtoText.FieldLinesInOrder | src/main/kotlin/com/valaphee/protod/ProtoWriter.kt:88 | line i is `<label> <type> <name> = <number>;` for field i, in order |
| ProtoText.MessagesText | src/main/kotlin/com/valaphee/protod/ProtoWriter.kt:72-84 | after the messages, `first` keeps its entry value only when there are no messages |
| ProtoText.MessagesOk | src/main/kotlin/com/valaphee/protod/ProtoWriter.kt:72-89 | the messages print without failing exactly when every message's fields are printable |
| ProtoText.MethodsText | src/main/kotlin/com/valaphee/protod/ProtoWriter.kt:106-118 | after the methods, `first` keeps its entry value only when there are no methods |
| ProtoText.ServicesText | src/main/kotlin/com/valaphee/protod/ProtoWriter.kt:91-104 | after the services, `first` keeps its entry value only when there are no services |
| ProtoText.FileText | src/main/kotlin/com/valaphee/protod/ProtoWriter.kt:35-43 | a file's text starts with `syntax = "proto2";`, a blank line and `package <pkg>;` |
| ProtoText.ImportsIndented | src/main/kotlin/com/valaphee/protod/ProtoWriter.kt:55-58 | every import line is at the current indentation |
| ProtoText.OptionsIndented | src/main/kotlin/com/valaphee/protod/ProtoWriter.kt:60-70 | every option line is at the current indentation |
| ProtoText.FieldsIndented | src/main/kotlin/com/valaphee/protod/ProtoWriter.kt:86-89 | every field line is at the current indentation |
| ProtoText.BlockIndented | src/main/kotlin/com/valaphee/protod/ProtoWriter.kt:75-82 | a block whose body is one level deeper is all at the block's level |
| ProtoText.MessagesIndented | src/main/kotlin/com/valaphee/protod/ProtoWriter.kt:72-84 | every line of the messages is at least at the current indentation |
| ProtoText.MethodsIndented | src/main/kotlin/com/valaphee/protod/ProtoWriter.kt:106-118 | every line of the methods is at least at the current indentation |
| ProtoText.ServicesIndented | src/main/kotlin/com/valaphee/protod/ProtoWriter.kt:91-104 | every line of the services is at least at the current indentation |
| ProtoText.FileIndented | src/main/kotlin/com/valaphee/protod/ProtoWriter.kt:35-53 | every line of a file is at least at the writer's indentation |
| ProtoText.BlockOutline | src/main/kotlin/com/valaphee/protod/ProtoWriter.kt:75-82 | seen at its own level, a block is its optional blank line, its opener and a `}` at the same indentation; the body is all deeper |
| ProtoText.MessagesOutline | src/main/kotlin/com/valaphee/protod/ProtoWriter.kt:72-84 | at the list's level the messages read as `message <name> {` / `}` pairs in order, with a blank line before each but the first when `first` was set |
| ProtoText.MethodsOutline | src/main/kotlin/com/valaphee/protod/ProtoWriter.kt:106-118 | the methods read as `rpc <name> (<in>) returns (<out>) {` / `}` pairs in order, separated the same way |
| ProtoText.ServicesOutline | src/main/kotlin/com/valaphee/protod/ProtoWriter.kt:91-104 | the services read as `service <name> {` / `}` pairs in order, separated the same way |
| Writer.ProtoWriter.constructor | src/main/kotlin/com/valaphee/protod/ProtoWriter.kt:27-33 | a new writer keeps its tables and parsers, has `first` unset, indentation 0 and no output |
| Writer.ProtoWriter.PrintEmptyLine | src/main/kotlin/com/valaphee/protod/ProtoWriter.kt:45-48 | `println()` appends one line holding only the indentation |
| Writer.ProtoWriter.PrintLine | src/main/kotlin/com/valaphee/protod/ProtoWriter.kt:50-53 | `println(value)` appends one line, the indentation followed by the value |
| Writer.ProtoWriter.OpenSection | src/main/kotlin/com/valaphee/protod/ProtoWriter.kt:56 | the section prologue writes and updates `first` as `Open` says |
| Writer.ProtoWriter.PrintImports | src/main/kotlin/com/valaphee/protod/ProtoWriter.kt:55-58 | appends exactly the imports text and sets `first` as it says |
| Writer.ProtoWriter.PrintOptions | src/main/kotlin/com/valaphee/protod/ProtoWriter.kt:60-70 | appends exactly the options text, sets `first` as it says, and fails exactly when it does |
| Writer.ProtoWriter.PrintKnownOptions | src/main/kotlin/com/valaphee/protod/ProtoWriter.kt:62-67 | appends one option line per set field, in order |
| Writer.ProtoWriter.PrintUnknownFields | src/main/kotlin/com/valaphee/protod/ProtoWriter.kt:68-69 | appends exactly the extension option lines of all unknown fields, failing exactly when the text does |
| Writer.ProtoWriter.PrintExtensionField | src/main/kotlin/com/valaphee/protod/ProtoWriter.kt:69 | the same for one unknown field |
| Writer.ProtoWriter.PrintPayloads | src/main/kotlin/com/valaphee/protod/ProtoWriter.kt:69 | the same for the length-delimited payloads of one extension |
| Writer.ProtoWriter.PrintAssignments | src/main/kotlin/com/valaphee/protod/ProtoWriter.kt:69 | the same for the entries of one parsed payload |
| Writer.ProtoWriter.PrintFields | src/main/kotlin/com/valaphee/protod/ProtoWriter.kt:86-89 | appends exactly the fields text, sets `first` as it says, and fails exactly when it does |
| Writer.ProtoWriter.PrintFieldLines | src/main/kotlin/com/valaphee/protod/ProtoWriter.kt:88 | appends the field lines, stopping at the first field that fails |
| Writer.ProtoWriter.OpenBlock | src/main/kotlin/com/valaphee/protod/ProtoWriter.kt:75-78 | writes the optional blank line and the opener, clears the local flag, sets `first` and indents one level |
| Writer.ProtoWriter.CloseBlock | src/main/kotlin/com/valaphee/protod/ProtoWriter.kt:80-82 | restores `first` from the saved flag, indents back one level and writes `}` at that level |
| Writer.ProtoWriter.PrintMessage | src/main/kotlin/com/valaphee/protod/ProtoWriter.kt:75-82 | appends one message block and, on success, leaves the indentation as found |
| Writer.ProtoWriter.PrintMessageAt | src/main/kotlin/com/valaphee/protod/ProtoWriter.kt:74-83 | one iteration extends the output from the first i messages' text to the first i+1 |
| Writer.ProtoWriter.PrintMessages | src/main/kotlin/com/valaphee/protod/ProtoWriter.kt:72-84 | appends exactly the messages text; on success leaves `first` as it says and the indentation unchanged |
| Writer.ProtoWriter.PrintMethod | src/main/kotlin/com/valaphee/protod/ProtoWriter.kt:109-116 | appends one rpc block and, on success, leaves the indentation as found |
| Writer.ProtoWriter.PrintMethodAt | src/main/kotlin/com/valaphee/protod/ProtoWriter.kt:108-117 | one iteration extends the output from the first i methods' text to the first i+1 |
| Writer.ProtoWriter.PrintMethods | src/main/kotlin/com/valaphee/protod/ProtoWriter.kt:106-118 | appends exactly the methods text; on success leaves `first` as it says and the indentation unchanged |
| Writer.ProtoWriter.PrintServiceBody | src/main/kotlin/com/valaphee/protod/ProtoWriter.kt:98-99 | a service's options followed by its methods, exactly as `ServiceBody` says |
| Writer.ProtoWriter.PrintService | src/main/kotlin/com/valaphee/protod/ProtoWriter.kt:94-102 | appends one service block and, on success, leaves the indentation as found |
| Writer.ProtoWriter.PrintServiceAt | src/main/kotlin/com/valaphee/protod/ProtoWriter.kt:93-103 | one iteration extends the output from the first i services' text to the first i+1 |
| Writer.ProtoWriter.PrintServices | src/main/kotlin/com/valaphee/protod/ProtoWriter.kt:91-104 | appends exactly the services text; on success leaves `first` as it says and the indentation unchanged |
| Writer.ProtoWriter.Print | src/main/kotlin/com/valaphee/protod/ProtoWriter.kt:35-43 | appends exactly the file's text, in the order header, imports, options, messages, services; on success the indentation is unchanged |

## Left out

- Reading the binary from its hard-coded path (`Main.kt:28`) is left out. Writing one file per record under `output/` (`Main.kt:84-91`) is also left out. The model takes the blob as a byte sequence and produces lines.
- `Main.kt:87-89` constructs `ProtoWriter` with one argument and sets an `extensionRegistry` property. `ProtoWriter.kt` declares neither, so the writer is modelled with the three-argument constructor of `ProtoWriter.kt:27-31`. Its tables and parsers are constructor parameters.
- The extension registry built at `Main.kt:81-82` is pure library registration, and `ProtoWriter.kt` never reads it. It is not modelled.
- `Main.kt:30` searches a US-ASCII `String` with a `String.occurrencesOf` overload whose source is not part of this model. `Locator.FindDescriptors` searches the bytes with the modelled `ByteArray` version. US-ASCII decoding keeps one character per byte, so the offsets are the same.
- Several protobuf library calls are function parameters, not implementations:
  - `FileDescriptorProto.parseFrom` (with `totalBytesRead`);
  - `Descriptors.FileDescriptor.buildFrom`;
  - `UnknownFieldSet.parseFrom`;
  - `ByteString.toStringUtf8`.
  The only requirement placed on them is that a failed parse reports no more bytes read than its window held.
- `allFields` reflection is taken as given: a list of set option fields with their names. A non-`String` option value (number, enum, float) is the text its `toString` gives. Kotlin's floating-point formatting is not modelled.
- Exceptions are modelled as outcomes:
  - in the walk, as "continue" or "no record";
  - in the writer, as a `false` result.
  What the writer's fields hold after a failed print is stated only for the output lines. `first` and `indentLevel` are left unspecified there, as they are meaningless once the exception ends printing.
- The stack trace printed when a build fails (`Main.kt:75`) is not modelled.
- `generateSequence` is lazy and can be iterated once. `Kmp.OccurrencesOfAsWritten` and `Kmp.OccurrencesOf` return all offsets at once.
- Kmp.OccurrencesOf: it is the corrected search, not the source's. The source's search is `Kmp.OccurrencesOfAsWritten`, whose result differs on patterns whose first byte recurs (see Findings).
- `Locator`: the walk's `offset` and the anchor positions are unbounded integers. A Kotlin `Int` overflow of `offset` after 2^31 steps is not modelled. Such a walk is reported as `Diverges`.
- `Kmp.FallbackAsWritten`: a build that can never leave its fall-back loop is a `None` result, because a non-terminating loop cannot be run in the model. `Kmp.BuildTableAsWritten` detects the repeated state and reports `stuck`.
- `Linker.Link` does not itself say which descriptor each name maps to. `Linker.Visit` states it step by step: a built descriptor is filed under the name of the proto it was built from. The source files it under `fileDescriptor.name`, which `buildFrom` takes from that proto.
- `Writer.ProtoWriter.PrintServiceBody` requires `first` to be set on entry. It is called only right after `OpenBlock`, which sets it, as at `ProtoWriter.kt:96`.
- `ProtoText.ExtensionValue`: fixed32 and fixed64 values are printed as the signed integers Kotlin holds for them, supplied by `UnknownField`. Its contract states the failure case and the varint case; the fixed32, fixed64 and UTF-8 cases follow its body.
- `ProtoText.MessagesIndented`, `MethodsIndented`, `ServicesIndented`, `FileIndented`: they state only that each line carries at least the current indentation. The exact depth of nested lines is given by the `*Outline` lemmas and `ProtoText.BlockIndented`.

## Findings

| source | as written | input that shows it | evidently intended | confidence | as-written member | corrected member |
|---|---|---|---|---|---|---|
| src/main/kotlin/com/valaphee/protod/util/KnuthMorrisPratt.kt:26 | the table's fall-back is `matches = resultTable[matches]` | pattern "aab": at i = 2, `matches` is 1 and `resultTable[1]` is 1, so the loop never ends | `matches = resultTable[matches - 1]`, as the search loop at line 35 does | not executed | Kmp.TableAsWrittenDivergesOnAab | Kmp.BuildTable |
| src/main/kotlin/com/valaphee/protod/util/KnuthMorrisPratt.kt:26 | the same fall-back, when it does terminate | pattern "ababb": the loop ends with [0,0,1,2,2], but the prefix function is [0,0,1,2,0]; over haystack "ababbabb" the search then yields [0, 3], and "ababb" does not occur at 3 | the prefix function, built with `resultTable[matches - 1]`, and only real occurrences reported | not executed | Kmp.SourceFalseMatchOnAbabb | Kmp.OccurrencesOf |
