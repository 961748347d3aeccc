# A Dafny model of the relational query server

The server reads and writes PostgreSQL relations through JSON or CBOR requests. This project models the parts of it
that are algorithms with state or arithmetic, and proves what they promise. Nothing here talks to a database or to a
client: a SQL statement is a function on tables, a stream is a sequence of bytes, and whatever may fail is a parameter.

| part | modules |
|---|---|
| CBOR codec, record structures, arena decoder | `Wrappers`, `Bytes`, `CborItem`, `CborEncode`, `CborDoc`, `CborRoundTrip`, `CborGrammar`, `CborShape`, `Structures`, `CborArena`, `CborDecoder`, `CborJson`, `CborJsonText` |
| JSON to CBOR | `Utf8`, `JsonText`, `JsonParse`, `JsonTranscode`, `JsonMeaning` |
| `numeric`, arrays, text literals, dates | `Decimal`, `Numeric`, `NumericText`, `NumericCbor`, `NumericFloats`, `Arrays`, `ArrayFormat`, `TextLiteral`, `Civil` |
| the Writing Algorithm | `WriteTree`, `WritePlaces`, `WriteStatements`, `WritePhases`, `WriteMerge`, `WriteModes`, `WriteMergeNew`, `WriteOutcome`, `WriteShared`, `WriteSupplied`, `WriteForeseen`, `WriteRequest`, `WriteSelfReference`, `WriteAnswer`, `WriteFast`, `WriteUpdate`, `WriteShown`, `WriteReadBack`, `WriteParts`, `Lens`, `LensColumns`, `LensWrite`, `MaskBits`, `Presence` |
| request execution | `Execute`, `ExecuteBody` |
| reload protocol | `Reload` |
| structural query strings | `Structural` |

How the modules fit together:

- `CborItem` is a reader written as functions over the bytes that are left; `CborDecoder.Decoder` is the one-pass
  decoder with its position, its arena and its structure table, proved to read what the functions read and to keep
  the arena well formed. `CborDoc` says what the encoders emit for a document and what the document means, without
  mentioning the reader. `CborRoundTrip` connects the two. `CborGrammar` tells what any client may send, from RFC 8949
  alone, and what it means; it is proved to be exactly what the reader takes. `CborShape` says which of those spellings the
  encoders choose.
- `JsonText` is the grammar of RFC 8259 as a concrete syntax tree with its spelling; `JsonParse` is proved to accept
  exactly the spellings; `JsonTranscode` is the streaming parser with its position; `JsonMeaning` says which documents
  come back from the CBOR reader as the value that was written, with the escapes and the characters of a string taken
  from a table of its own.
- `Decimal` gives base-10000 magnitudes by arithmetic alone: a value has one canonical magnitude. `Numeric` and
  `NumericCbor` are the two digit-by-digit algorithms, proved against it; `NumericText` tells the first over the pieces of
  the text and the words of the binary format, and `ArrayFormat` does the latter for arrays.
- `WriteTree` numbers the nodes and walks a payload into rows, `WritePlaces` says which rows those are; `WriteStatements` gives each statement as a function on
  tables; `WritePhases` is their order; `WriteMerge` runs them and keeps row and node ids apart over all the write
  items of a request; `WriteModes` tells what every write mode does to its table and keys without the
  statements; `WriteMergeNew`, `WriteOutcome`, `WriteShared`, `WriteSupplied` and `WriteForeseen` are what comes out;
  `WriteAnswer` is the response, `WriteFast` and `WriteUpdate` its fast path, `WriteShown` what both answer, and `WriteReadBack` both paths in a whole request.

Where the code does not meet what one would expect of it, the model keeps the code and states where the line runs:

- `AppendJSON` subtracts the number of fraction digits from the exponent in 64 bits (cborenc/json.go:334).
  `JsonMeaning.ExponentWraps` gives a numeral whose exponent wraps round; `JsonMeaning.TranscodeRead` proves that a
  document comes back as it was written if and only if the exponents fit, the keys differ and the nesting is one the
  reader accepts.
- Name lists are told apart by joining them on NUL (query/result_cbor.go:91). `Structures.JoinCollides` gives lists
  that share a key; `Structures.StructureTable.IdFor` states exactly when the id stands for the list asked for. This is
  about the function alone: a select without fields is refused when its statement is compiled
  (query/sql.go:219-221), and a statement cannot hold a NUL, so no response has such names.
- A merging node deletes the rows under its parents that it does not list, also those that another node of the same
  payload has just written to the relation (query/write_dml.go:1384-1475). The modes that delete are for incoming joins
  (query/node_resolve.go:88-110, 220-225), and there the payload can lose rows: `WriteSelfReference.RowLost` upserts two
  categories, the second a child of the first, and loses the second because neither lists it among its kids;
  `WriteSupplied.SiblingsErase` is about two joins of one relation by the same column, which erase each other's rows.
  `WriteSupplied.SharedMergedIff` proves, for relations whose nodes supply different identities, that the merge outcome
  holds if and only if every payload row endures, a condition on the payload and the tables before the run;
  `WriteForeseen.ForeseenMergedIff` proves the same for identities that are generated or taken from a parent or child;
  `WriteShared.RowSurvivesIff` says which rows stay whatever the identities.
- `merge-new` ignores rows that exist (docs/content/query-language/writing.md:23), and finds their keys again by the
  identity of the temp row (query/write_dml.go:912-953), which a node keyed by its parent's key does not have unless the
  payload repeats it. `WriteMergeNew.HoldsIff` proves that an existing row's key is found if and only if the payload
  supplies the identity; `WriteMergeNew.KeyedByParent` that it is deleted otherwise, and `WriteMergeNew.ProfileLost` is
  such a request.
- The fast path takes distinct responses (query/write_fast.go:71-75 looks at the expressions of `distinct_on` only, and
  not at `distinct`), but orders its response by row id for an update-existing alone, while the read-back of the general
  path always does (query/sql.go:363-380). PostgreSQL refuses a distinct that is ordered by something else.
  `WriteParts.DistinctInsert` is an insert that the fast path answers and the general path refuses;
  `WriteFast.OrdersDisagree` says that this happens on a distinct response without `order_by` only.
- The fast path answers from its own statement, the general path reads back when every item of the request has run
  (relexec/relexec.go:337-373). `WriteParts.LaterUpdate` and `WriteParts.LaterDelete` are requests of two items whose
  first is answered differently by the two. `WriteReadBack.FastPath` proves that, as long as the later items leave the
  rows under the write's keys as they are, the paths agree if and only if their orders do; `WriteReadBack.DisturbedIff`
  that otherwise some eligible query is answered differently; `WriteReadBack.Untouched` that items which write other
  relations, or are rolled back, leave them.
- `coalesce` keeps its columns writable, all at one path (query/shape.go:214-217). `Lens.NameOverwritten` reads a row and
  writes the column shown over the one that was not; `Lens.ReadThenUpdateIff` proves that the first law holds of a row if
  and only if columns shown together hold the same value.
- An object inside an opaque expression starts again as clean (query/shape.go:189-312), so its columns look writable
  though the response does not show them. `Lens.HiddenName` is a select of that kind; `Lens.HiddenExtractorBreaks` gives,
  for every such extractor, a row that reading and writing back changes; the laws hold for every select without one.
- The comment on `Prepared.Execute` says that every error rolls the request back. An error of the last flush comes
  after the commit (relexec/relexec.go:377-386): `Execute.CutAfterCommit` is such a run. The contract of
  `Execute.Execute` proves that an error leaves the request committed if and only if every step of the connection
  succeeds through the commit, the client takes every write made before it, and falls short of the end of the body.
- The result encoder accepts arrays of at most 6 dimensions while the write encoder has no such limit:
  `Arrays.ArrayBack` says what happens on both sides of it.
- The text form of an array is written level by level without looking at the sizes of sub-arrays
  (query/write_encode_complex.go:331-361). `TextLiteral.LiteralBack` gives what PostgreSQL makes of it: a ragged array is
  refused, one without elements is stored empty, and `TextLiteral.NormalIff` says exactly which values are stored as
  themselves.

## Model

| member | source | states |
|---|---|---|
| `CborEncode.HeadRoundTrip` | cborenc/encode.go:78-91 | any head, followed by any bytes, reads back as the same major type and argument and leaves exactly those bytes |
| `CborShape.HeadShortest` | cborenc/encode.go:78-91 | a head is the spelling of its argument in the shortest of the five widths that carry it |
| `CborEncode.AppendInteger` | cborenc/encode.go:149-180 | an integer text of any length, leading zeros and "-0" included, is appended as the shortest form of its value: a 64-bit head or a bignum |
| `CborEncode.TrimLeadingZeros` | cborenc/encode.go:149-180 | the digits left have the same value and no leading zero |
| `CborEncode.ParseUint64` | cborenc/encode.go:149-180 | up to 19 digits have a value below 2^64, and it is the one computed |
| `CborDoc.AppendDecimal` | cborenc/encode.go:184-189 | appends tag 4 around exponent and mantissa, for mantissas of any size |
| `CborDoc.AppendStructureDef` | cborenc/encode.go:58-67 | the loop appends the definition with its id and every name in order |
| `CborRoundTrip.IntegerRead` | cborenc/encode.go:97-180 | an integer of any size reads back as itself, unless it is a bignum at the nesting limit |
| `CborRoundTrip.DecimalRead` | cborenc/encode.go:184-189 | a decimal reads back with the same mantissa and exponent exactly when its two or three levels are within the nesting limit |
| `CborRoundTrip.NamesRead` | query/node_cbor.go:526-558 | a name list reads back in order if and only if every name is valid UTF-8 |
| `CborRoundTrip.DefRead` | query/node_cbor.go:461-523 | a definition enters its names under its id and reads the record by them; it is refused exactly for bad names or too deep a nesting |
| `CborRoundTrip.RefRead` | query/node_cbor.go:461-523 | a reference to a known structure reads the record by the names the table holds for it, and costs two levels |
| `CborRoundTrip.DocRead` | query/node_cbor.go:136-558 | for every document, any suffix, any starting table in step with the encoder: reading its encoding gives its meaning, leaves exactly the suffix and leaves the tables in step if it fits the nesting, text and key rules, and fails otherwise |
| `CborRoundTrip.DocumentRead` | query/node_cbor.go:32-90 | a whole document is accepted if and only if it fits and nothing follows it |
| `CborRoundTrip.PrefixFree` | cborenc/encode.go:78-209 | for any two documents, record structures included, each over its own table of names: no encoding is a proper prefix of another, and equal encodings mean the same |
| `CborRoundTrip.AsMapsKeeps` | query/result_cbor.go:293-351 | writing every record as a plain map keeps the meaning and never nests deeper |
| `CborRoundTrip.StructuresReadAsMaps` | query/result_cbor.go:293-351 | for every document with nested and repeated records, the structured stream and the map stream read as the same value |
| `CborGrammar.CharsRead` | query/node_cbor.go:212-257 | for every list of chunks of either string type, each with a head of any width, any suffix and depth: the opening byte, the chunks and the break read as text or bytes of the chunks joined in order, leaving the suffix, and are refused exactly when a chunk of text is not UTF-8; the same for a string of definite length |
| `CborGrammar.WireRead` | query/node_cbor.go:101-558 | any spelling an RFC 8949 client may send, with heads of any width, definite or indefinite containers and strings, half, single and double floats, undefined, tags and record structures, reads as its meaning, and is refused exactly when it has none |
| `CborGrammar.TagIs` | query/node_cbor.go:380-457 | the meaning of a tag over its content, told from the tags of RFC 8949: an epoch time over a float is taken exactly when the float is finite and at most 9e18 in magnitude, worked out from its sign, exponent and fraction |
| `CborGrammar.ReadIff` | query/node_cbor.go:101-558 | the reader takes exactly the byte strings that start with a spelling that means something, to what it means, and leaves what follows it |
| `CborGrammar.BodyIff` | query/node_cbor.go:32-90 | a body is accepted, as a value, if and only if it is whole the spelling of an item that means that value |
| `CborShape.Written` | cborenc/encode.go:58-209 | what the encoders emit for a document is its spelling with the shortest heads: text as text, a float in eight bytes, a record as a definition the first time and a reference afterwards; the structures defined afterwards are those before and those of its records |
| `Structures.JoinInjective` | query/result_cbor.go:90-103 | lists of NUL-free names with the same key are the same list |
| `Structures.JoinCollides` | query/result_cbor.go:90-103 | `idFor` itself gives two lists one key when a name holds a NUL, or when one list is empty |
| `Structures.StructureTable.IdFor` | query/result_cbor.go:90-103 | ids are never reassigned; it gives up exactly when the table is full and the key is new; the id stands for the list asked for exactly when no other list has its key |
| `Structures.StructureTable.PlanFor` | query/result_cbor.go:124-145 | for every select with NUL-free names, whatever was planned before: each record gets an id that stands for its own list of names, for good |
| `Structures.FollowsPlanned` | query/result_cbor.go:293-351 | a response written by such a plan is one the table serves |
| `Structures.StructureTable.WriteResponse` | relexec/relexec.go:167-180 | a whole response, any number of items planned one after the other in one table and any rows they answer with, nested and repeated records included, reads back as those rows if it fits, and is refused otherwise |
| `Structures.StructureTable.AppendRecord` | query/result_cbor.go:293-351 | a record is written as a definition the first time and as a reference afterwards, the `defined` flags following the bytes |
| `Structures.StructureTable.AppendValue` | query/result_cbor.go:160-281 | the bytes and the set of defined structures after any value |
| `Structures.StructureTable.AppendAll` | query/result_cbor.go:354-411 | the elements of an array, one after the other, over one table |
| `Structures.StructureTable.AppendFields` | query/result_cbor.go:293-351 | names and values of a map record, over one table |
| `Structures.StructureTable.WriteDocument` | query/result_cbor.go:148-281 | what a fresh table writes is read back as the meaning of the value if it fits, and refused otherwise |
| `CborArena.GrowsWF` | query/node_cbor.go:94-98 | appending well-formed nodes keeps every kid range in bounds and every kid below its own node |
| `CborArena.GrowsView` | query/node_cbor.go:94-98 | what a finished node stands for never changes as the arena grows, shared structure names included |
| `CborArena.FillSlot` | query/node_cbor.go:267-354 | writing a reserved kid slot disturbs no finished container |
| `CborArena.KindView` | query/node_cbor.go:581-605 | the kind of a node agrees with the value it stands for, integers split exactly at 64 bits |
| `CborArena.IntegerTextView` | query/node_cbor.go:613-628 | `integerText` is the decimal text of the integer a node stands for, and nothing for any other node |
| `CborDecoder.Decoder.Head` | query/node_cbor.go:101-133 | advances past exactly the head that the byte-level reader sees |
| `CborDecoder.Decoder.Item` | query/node_cbor.go:136-171 | fails exactly when the byte-level reader fails; else the new node stands for the value read, position and structures agree, the arena stays well formed and gains no more nodes than bytes were consumed |
| `CborDecoder.Decoder.SimpleItem` | query/node_cbor.go:173-192 | null, booleans and floats, everything else refused |
| `CborDecoder.Decoder.StringItem` | query/node_cbor.go:212-257 | definite and chunked strings, with text validity per chunk |
| `CborDecoder.Decoder.Chunks` | query/node_cbor.go:212-257 | the chunks of an indefinite string joined in order, up to the break |
| `CborDecoder.Decoder.ArrayItem` | query/node_cbor.go:267-304 | definite arrays filled in reserved slots and indefinite ones collected stand for the same elements in order |
| `CborDecoder.Decoder.MapItem` | query/node_cbor.go:306-354 | pairs in order, text keys only, distinct keys only |
| `CborDecoder.Decoder.DistinctKeys` | query/node_cbor.go:356-377 | both the pairwise and the set form answer whether the keys all differ |
| `CborDecoder.Decoder.TagItem` | query/node_cbor.go:380-457 | a tagged item and the levels it costs |
| `CborDecoder.Decoder.Interpret` | query/node_cbor.go:380-457 | the meaning of each tag over its content: instants, bignums, decimals, UUIDs, dates, and what is refused |
| `CborDecoder.Decoder.StructureItem` | query/node_cbor.go:461-523 | a definition or a reference and its record, with the table the byte-level reader has |
| `CborDecoder.Decoder.StructureNames` | query/node_cbor.go:526-558 | the names of a definition: text, different from one another, no more than there are bytes |
| `CborDecoder.Decoder.Record` | query/node_cbor.go:461-523 | the values paired with the shared name nodes, in order |
| `CborDecoder.NewNode` | query/node_cbor.go:32-90 | accepts exactly the documents of the byte-level reader; the root stands for the value, the arena is well formed, and there are no more nodes than bytes |
| `CborJson.WriteJson` | query/node_cbor.go:831-899 | the walk ends, every kid being before its node, and writes exactly the JSON text of the item the node stands for, or fails exactly when it has none |
| `CborJson.OrderSorts` | query/node_cbor.go:865-872 | the keys of a map come out sorted, each once |
| `CborJsonText.OrderIs` | query/node_cbor.go:865-872 | for any two keys written one after the other, the first byte that differs is smaller in the first |
| `CborJsonText.JsonIff` | query/node_cbor.go:831-899 | an item has a JSON text if and only if all its parts have one: byte strings, dates, times, UUIDs and unknown tags have none |
| `CborJsonText.JsonDocument` | query/node_cbor.go:831-899 | the text written is a JSON document of the grammar that says what the item says: true as true, every number digit for digit, maps as objects in sorted order, nesting as it is |
| `Decimal.PackCanonical` | query/write_encode_numeric.go:55-158 | stripping and splitting by arithmetic gives a canonical magnitude of the value |
| `Decimal.CanonicalUnique` | query/write_encode_numeric.go:55-158 | equal values have equal canonical magnitudes |
| `Numeric.ParseForm` | query/write_encode_numeric.go:55-101 | every text of the number grammar is accepted and split into its own parts |
| `Numeric.FormOf` | query/write_encode_numeric.go:55-101 | every accepted text is of the grammar |
| `Numeric.ParseText` | query/write_encode_numeric.go:55-101 | the index loops over the text compute that split |
| `Numeric.NumericExact` | query/write_encode_numeric.go:55-158 | the digit groups denote exactly the decimal value, the scale is max(fraction digits - exponent, 0), no leading or trailing zero group, and zero has no sign |
| `NumericText.NumberExact` | query/write_encode_numeric.go:55-158 | told over the pieces of the text: sign, whole digits, fraction digits, exponent sign and exponent digits x stand for the digits as one integer at x - |fraction|, or at -x - |fraction| after a minus; the groups stored are the canonical ones of that value, the scale follows, and it is refused exactly when the type cannot hold it |
| `NumericText.Words` | query/write_encode_numeric.go:20-33 | the words for NaN and the infinities in any case, and no other text, are written as 0xc000, 0xd000 and 0xf000 |
| `Numeric.StripZeros` | query/write_encode_numeric.go:103-125 | outer zeros go, and the value left is scaled by exactly the ones cut at the end |
| `Numeric.GroupsCanonical` | query/write_encode_numeric.go:127-158 | padding to whole groups of four puts the point on a group boundary and yields the canonical magnitude |
| `Numeric.AppendGroups` | query/write_encode_numeric.go:145-157 | the loop over the digits writes the groups of the padded text |
| `Numeric.AppendParts` | query/write_encode_numeric.go:55-158 | refuses exactly what is out of range of the format, else writes the canonical value |
| `Numeric.AppendNumeric` | query/write_encode_numeric.go:35-158 | for every text: refused, a special value or the exact numeric, each with its bytes |
| `NumericText.WireIs` | query/write_encode_numeric.go:145-157 | 16-bit words in the order of numeric_recv: the count of groups, the weight in two's complement, the sign, the scale, then each group |
| `NumericFloats.SpecialFloats` | query/result_cbor.go:424-472 | the bits a NaN and the infinities come back with are a NaN, plus and minus infinity of IEEE 754 |
| `NumericCbor.GroupText` | query/result_cbor.go:424-472 | the text of the groups between two powers denotes the part of the value at those powers |
| `NumericCbor.CutIsMantissa` | query/result_cbor.go:424-472 | cutting the surplus digits of the last group leaves the mantissa at the declared scale |
| `NumericCbor.AppendGroupsCbor` | query/result_cbor.go:424-472 | on an in-range value the 40000-group guard does not fire and the decimal written is the value at its scale |
| `NumericCbor.AppendNumericCbor` | query/result_cbor.go:424-472 | short data is refused, special values become the floats, and every in-range numeric becomes the decimal of the same value and scale |
| `NumericCbor.NumericStable` | query/write_encode_numeric.go:55-158 | writing the text of the decimal that was read gives the same numeric again, sign, scale and groups |
| `NumericCbor.DecimalOfNumeric` | query/node_cbor.go:648-658 | the decimal written for a numeric is read back as that mantissa and scale |
| `NumericCbor.MantissaLength` | query/result_cbor.go:424-472 | no in-range numeric needs more than 180001 characters |
| `Utf8.RepairValid` | cborenc/json.go:266-277 | replacing bad bytes gives valid UTF-8, leaves valid text alone and at most triples the length |
| `Utf8.RuneRead` | cborenc/json.go:266-277 | every scalar value decodes from its own encoding |
| `Utf8.ReencodeRune` | cborenc/json.go:266-277 | decoding and encoding a rune gives its bytes, or the replacement character for a bad one |
| `Utf8.ValidText` | cborenc/json.go:266-277 | the loop computes the repaired text |
| `Utf8.EncodesIff` | cborenc/json.go:266-277 | the bytes of a rune are those of the table of RFC 3629, and a surrogate or a number beyond U+10FFFF has none |
| `Utf8.ValidIff` | cborenc/json.go:266-277 | a text is valid if and only if it is the encoding of some characters |
| `Utf8.Repaired` | cborenc/json.go:266-277 | characters stay as they are; a byte that starts no character becomes EF BF BD and the rest is taken up right after it |
| `JsonParse.PiecesSound` | cborenc/json.go:170-241 | the pieces of a string literal spell the bytes consumed |
| `JsonParse.PiecesComplete` | cborenc/json.go:170-241 | every spelling of a string is read as its pieces |
| `JsonParse.NumeralSound` | cborenc/json.go:280-335 | a number read spells the bytes consumed |
| `JsonParse.NumeralComplete` | cborenc/json.go:280-335 | every numeral of section 6 of RFC 8259 is read as itself |
| `JsonParse.ValueSound` | cborenc/json.go:55-167 | a value read spells the bytes consumed and nests at most as deep as allowed |
| `JsonParse.ValueComplete` | cborenc/json.go:55-167 | every value that nests at most as deep as allowed is read as itself |
| `JsonParse.DocumentIff` | cborenc/json.go:20-31 | the bytes accepted are exactly the JSON documents of nesting at most 1000 with exponents of 64 bits |
| `JsonParse.Unambiguous` | cborenc/json.go:20-31 | a text is the spelling of one document only |
| `JsonText.Structural` | cborenc/json.go:44-167 | white space and the structural characters are those of section 2 of RFC 8259 |
| `JsonText.StringCharacters` | cborenc/json.go:170-264 | raw characters, escape letters and hexadecimal digits are those of section 7 |
| `JsonText.NumberCharacters` | cborenc/json.go:280-335 | digits, signs, point and exponent marks are those of section 6 |
| `JsonText.ArrayText` | cborenc/json.go:92-122 | the text of an array is its elements with commas between them, in brackets |
| `JsonText.ObjectText` | cborenc/json.go:124-167 | the text of an object is its members with commas between them, in braces |
| `JsonTranscode.AppendJson` | cborenc/json.go:20-31 | succeeds exactly on those documents, appends their CBOR, and on failure returns the buffer it was given |
| `JsonTranscode.JsonParser.SkipSpace` | cborenc/json.go:44-53 | stops at the first byte that is not white space |
| `JsonTranscode.JsonParser.Value` | cborenc/json.go:55-82 | consumes and emits what the grammar says of one value |
| `JsonTranscode.JsonParser.Literal` | cborenc/json.go:84-90 | succeeds exactly on the word and consumes it |
| `JsonTranscode.JsonParser.Array` | cborenc/json.go:92-122 | an array, empty or not, with the depth check |
| `JsonTranscode.JsonParser.Elements` | cborenc/json.go:92-122 | the loop over elements and commas up to the closing bracket |
| `JsonTranscode.JsonParser.Object` | cborenc/json.go:124-167 | an object, empty or not, with the depth check |
| `JsonTranscode.JsonParser.KeyText` | cborenc/json.go:124-167 | a key and its colon, white space around both |
| `JsonTranscode.JsonParser.Fields` | cborenc/json.go:124-167 | the loop over members and commas up to the closing brace |
| `JsonTranscode.JsonParser.Str` | cborenc/json.go:170-241 | the fast scan and the escape loop give the same repaired text |
| `JsonTranscode.JsonParser.Rest` | cborenc/json.go:170-241 | the escape loop from any point |
| `JsonTranscode.JsonParser.Escape` | cborenc/json.go:170-241 | one escape adds the bytes it stands for; a bad one makes the whole string bad |
| `JsonTranscode.JsonParser.Unicode` | cborenc/json.go:212-234 | surrogate pairs join, lone halves become the replacement character |
| `JsonTranscode.JsonParser.Hex4` | cborenc/json.go:243-264 | four hexadecimal digits and their value, else nothing consumed |
| `JsonTranscode.JsonParser.Number` | cborenc/json.go:280-335 | a number is accepted as the grammar says and emitted as an integer or a decimal |
| `JsonTranscode.AppendNumeral` | cborenc/json.go:325-335 | the bytes emitted for a numeral |
| `JsonMeaning.DocBytes` | cborenc/json.go:55-167 | the bytes emitted for a document are the encoding of its CBOR form, indefinite containers included |
| `JsonMeaning.DocMeaning` | cborenc/json.go:280-335 | that form means the JSON value, digit for digit, if and only if the document is one the reader accepts and its exponents fit |
| `JsonMeaning.NumeralMeans` | cborenc/json.go:280-335 | a number means its digits as one integer, with its sign, at the power of ten its signed exponent and its fraction leave; an integer exactly when it has neither |
| `JsonMeaning.TranscodeRead` | cborenc/json.go:20-31 | a transcoded document reads back as the JSON value, trailing zeros kept, if and only if its nesting, keys and exponents are ones the reader accepts |
| `JsonMeaning.ExponentWraps` | cborenc/json.go:334-334 | a numeral whose exponent wraps round to the largest one |
| `JsonMeaning.WrapExact` | cborenc/json.go:334-334 | the subtraction is exact exactly when its result fits 64 bits |
| `JsonMeaning.SpelledString` | cborenc/json.go:170-241 | however each character of a string is spelled, raw, short escape, code or surrogate pair, the text is its UTF-8 |
| `WriteTree.AssignNodeIDs` | query/write.go:132-151 | numbers the nodes in preorder from the start value, changes nothing else and returns the next free number |
| `WriteTree.WalkRows` | query/write_denormalize.go:231-303 | the rows of a walked object have consecutive ids, each belongs to a node of the tree, and each parent id names an earlier row of the node's parent |
| `WritePlaces.DenormalizedIs` | query/write_denormalize.go:179-303 | the rows of a payload are, one by one and in order, the objects at the places of the payload the select reaches: each with the values found at its extractor paths, the node of the place and, as parent, the row of the object around it; no place is left out and none comes twice |
| `WritePlaces.RefusedIff` | query/write_denormalize.go:179-303 | a payload is refused if and only if at some place the select reaches there is something that is no object, no array where one is expected, or a value its column does not take |
| `WriteTree.DenormalizeRows` | query/write_denormalize.go:179-211 | the same over all objects of a payload |
| `WriteTree.DenormalizeNode` | query/write_denormalize.go:179-211 | accepts exactly arrays every object of which walks; reports exactly the nodes with rows and the nodes of each temp table |
| `WriteTree.Denormalizer.WalkNode` | query/write_denormalize.go:231-303 | appends the rows of one object and advances the row counter by their number |
| `WriteTree.Denormalizer.WalkFields` | query/write_denormalize.go:255-303 | the loop over the embedded children, in select order |
| `WriteTree.Denormalizer.WalkField` | query/write_denormalize.go:255-303 | one embedded child: absent, null, an object, or an array where arrays are allowed |
| `WriteTree.Denormalizer.AddRow` | query/write_denormalize.go:231-255 | appends a row to its batch and keeps the node sets exact |
| `WriteStatements.RunFrame` | query/write_dml.go:799-1313 | every statement of phase 1 changes its own relation and the values of its own temp rows only |
| `WriteModes.StatementOutcome` | query/write_dml.go:799-1313 | every write mode, told over the table and the temp rows before and after: which statement is refused, if and only if; which rows are there; column by column what a new, an overwritten and an updated row holds, where a key comes from a parent or child, a default from a missing value, or the payload; and which key each payload row gets back |
| `WriteModes.ModeOutcome` | query/write_dml.go:377-428 | the same for every mode carried through both phases, for a relation one written node uses: phase 1 leaves that table and those keys, phase 2 removes exactly the rows in scope that no payload row holds, if the mode deletes |
| `WriteMergeNew.MergeNewOutcome` | query/write_dml.go:818-953 | merge-new over both phases: a row of the table before is there unchanged or gone, and gone exactly when it is in scope and the payload does not supply its identity; every payload row whose identity was missing is there with its values, under its own parent, missing columns at their defaults; nothing else is there |
| `WriteMergeNew.HoldsIff` | query/write_dml.go:912-953 | after phase 1 a payload row holds its own identity if and only if no row had it before or the payload supplied it |
| `WriteMergeNew.KeyedByParent` | query/write_dml.go:912-953 | a node keyed by its parent's key: a row that was there and is in the payload under its parent, but without its identity, is deleted |
| `WriteMergeNew.ProfileLost` | query/write_dml.go:912-953 | such a request: user 1 and her profile are there, both are written back, and the profile is deleted |
| `WritePhases.DmlCompiler.Phase1` | query/write_dml.go:377-399 | queues outgoing children, the node, then incoming children, for populated nodes |
| `WritePhases.DmlCompiler.Phase2` | query/write_dml.go:403-428 | queues the deletes, children first, under populated parents |
| `WritePhases.KeyOrder` | query/write_dml.go:377-399 | in every tree, the statement that makes a key comes before the one that reads it |
| `WritePhases.DeleteOrder` | query/write_dml.go:403-428 | in every tree, whatever has rows, the delete of a child comes before its parent's |
| `WritePhases.SiteUnique` | query/write.go:132-151 | a node id stands for one place in the tree |
| `WritePhases.Plan1Distinct` | query/write_dml.go:377-399 | no node is written twice |
| `WritePhases.Plan1Has` | query/write_dml.go:377-399 | every populated node is written |
| `WritePhases.Plan2Has` | query/write_dml.go:403-428 | every merging node under a populated parent is cleaned |
| `WritePhases.PlacedDeletes` | query/node_resolve.go:88-110 | in every tree the resolver lets through, the deletes are exactly those of the merging incoming nodes whose parents have rows |
| `WriteMerge.LoadOrderly` | query/write.go:264-308 | loading a write item keeps, over the whole request, row ids unique, node ids apart, parents earlier and temp-table node sets complete |
| `WriteMerge.LoadReady` | query/write_dml.go:93-119 | after loading, each node's filter, dropped where it is the sole node, selects exactly its own rows and each row's parent is a row of the node's parent |
| `WriteMerge.RolledBack` | query/write.go:264-308 | undoing the rows from some id on keeps that discipline |
| `WriteMerge.ExecFrame` | query/write_dml.go:377-428 | a run of statements leaves relations and temp rows of other nodes alone |
| `WriteOutcome.UpsertOutcome` | query/write_dml.go:1067-1253 | every row of the node is stored with the values it supplies under its own parent's key, different rows under different keys, and no other row changes |
| `WriteOutcome.DeleteOutcome` | query/write_dml.go:1384-1475 | from there the delete leaves, in scope, exactly the node's rows, and nothing out of scope changes |
| `WriteOutcome.MergeOutcome` | query/write_dml.go:377-428 | for every tree, payload and starting tables: after both phases a merged relation that one node writes holds, under the payload's parents, exactly the payload's children, each pointing at its own parent with the values supplied, and every other row is unchanged |
| `WriteShared.WrittenStays` | query/write_dml.go:1067-1253 | after phase 1 every upserted row is stored under the key written back to it, whoever else writes the relation |
| `WriteShared.DeletesIff` | query/write_dml.go:403-428 | phase 2 never fails, and leaves a row, unchanged, if and only if every delete on its relation spares it |
| `WriteShared.RowSurvivesIff` | query/write_dml.go:1384-1475 | on any tree, shared relations included, a payload row is in the table at the end if and only if each delete on the relation has it out of scope or among its own node's identities |
| `WriteSupplied.SettledPhase1` | query/write_dml.go:1261-1313 | keys the temp rows hold already, as supplied ones, are the keys written back: the temp rows after phase 1 are those before |
| `WriteSupplied.StoredPhase1` | query/write_dml.go:1067-1253 | after phase 1 a row is as its own node's upsert stores it, whichever other nodes write the relation under other identities |
| `WriteSupplied.StaysIff` | query/write_dml.go:1384-1475 | a payload row is there at the end if and only if each merging node on the relation has no payload parent for its foreign key or a payload row of its identity; then it is as its own node's upsert stores it |
| `WriteSupplied.SharedMergedIff` | query/write_dml.go:377-428 | on a relation that any number of nodes write, with supplied and different identities: all payload rows are there with their values under their own parents, nothing else is left in a merging node's scope and all other rows are unchanged, if and only if every payload row endures, which the payload and the tables before the run decide |
| `WriteSupplied.OneWriterEndures` | query/write_dml.go:377-428 | a relation one node writes always comes out merged |
| `WriteSupplied.SharedWithRoot` | query/write_dml.go:1384-1475 | on a relation a root shares with an incoming merging child, the child's rows stay, and a row of the root stays if and only if it points at no root row of the payload |
| `WriteSupplied.SiblingsErase` | query/write_dml.go:1384-1475 | two nodes joined to one parent by the same column of one relation: no row of either stays under a parent with a key if the other merges |
| `WriteSupplied.UnnamedEnd` | query/write_dml.go:1384-1475 | a row no node names is deleted in the scope of a merging node and unchanged elsewhere |
| `WriteForeseen.RunAlongside` | query/write_dml.go:799-816 | each write mode's statement, over rows that will get their keys or hold them already, leaves the same tables, and its own rows hold their keys after it |
| `WriteForeseen.ForeseenRun` | query/write_dml.go:377-428 | when the keys to come are worked out from the payload, supplied, generated or a parent's or child's, the whole run goes as if the rows had held them from the start |
| `WriteForeseen.ForeseenMergedIff` | query/write_dml.go:377-428 | the merge outcome on a shared relation, for those keys as well, if and only if every payload row endures, told before the run |
| `WriteForeseen.IdentsForeseen` | query/write_dml.go:669-717 | for trees joined by identities the keys to come are the identities, the supplied ones and those the database generates |
| `WriteRequest.WriteState.ExecuteWriteNode` | query/write.go:227-313 | one write item over the request's counters: accepted exactly as the root, the writability of every node, the payload and the database allow, ids stay orderly, the statements are the compiled queue over the loaded rows, and every merged relation with one writer ends up merged |
| `WriteRequest.WriteState.AddTableNodes` | query/write.go:264-279 | the node sets of the temp tables join those known |
| `WriteRequest.FindUnwritable` | query/write.go:155-173 | finds a node that may not be written, the deepest first, and none exactly when all may |
| `WriteSelfReference.RowLost` | query/write_dml.go:1384-1475 | a request the resolver lets through, two categories of which the second is the first's child: it runs to its end and the second is not stored, since its row does not endure |
| `WriteAnswer.PlainAlone` | query/write_fast.go:81-110 | an expression that passes the test depends on the columns of the row alone |
| `WriteAnswer.EligibleIff` | query/write_fast.go:32-110 | a query is eligible if and only if no option asks for more, its response has a shape and embeds nothing, and every part of its expressions is a literal, a parameter or a column of the row |
| `WriteAnswer.RespondAlone` | query/write_fast.go:32-77 | an eligible query answers from the columns of the rows alone: select, where, order_by, distinct, limit and offset give the same whatever subselects and aggregates would |
| `WriteAnswer.RespondPassing` | query/write_fast.go:32-77 | and from those rows only that its where lets through |
| `WriteAnswer.ArrangedInOrder` | query/sql.go:383-403 | the order_by sorts the rows, nulls where the direction puts them, and loses none |
| `WriteShown.EvalMeans` | query/sql_expr.go:40-207 | what an expression is on a row: literals, parameters, columns and operators over their operands; anything else is what the subselects show |
| `WriteShown.ResponseIs` | query/sql.go:185-425 | a response is refused if and only if PostgreSQL refuses its distinct with its order; else entry i is entry offset + i of the rows that pass, in order, and there are min(limit, max(0, n - offset)) of them: the order is by the terms in turn, ascending or descending, nulls first only where asked, ties in row order; a distinct response has one row for each group, the first in that order, and every group |
| `WriteShown.GeneralShown` | query/write_fast.go:207-231 | the general path answers so from the rows of the last state that the node's temp rows name, in payload order |
| `WriteShown.FastShown` | query/write_fast.go:114-171 | the fast path answers so from the rows its own statement left under the identities of the payload, in payload order |
| `WriteShown.UpdateShown` | query/write_fast.go:175-204 | a where-driven update is refused if and only if identities collide or its order is not permitted; else the rows selected hold the patch, under their new identities, every other row is as it was, and it answers from them |
| `WriteFast.FlatRows` | query/write_denormalize.go:231-303 | a flat payload gives the same rows at any starting id, but for the ids |
| `WriteFast.ClashIff` | query/write_dml.go:818-1253 | a flat write is refused exactly when a row has no identity, two have the same, or an insert meets a row of the table |
| `WriteFast.FastRefinesGeneral` | query/write_fast.go:114-171 | one statement over the row parameter, answering from what it returns, is refused with or leaves the same table and gives the same response as the temp table, its statement, the key write-back and the read-back of the request's end, if and only if their orders agree, as long as that end shows the same rows |
| `WriteFast.EveryQuery` | query/write_fast.go:32-77 | for a given where, every eligible query whose orders agree is answered the same by both paths if and only if the read-back finds the same columns at the end of the request as after the statement |
| `WriteFast.AlikeIffUndisturbed` | relexec/relexec.go:458-538 | the read-back finds the same columns if and only if the rows under the node's keys are the same at the end |
| `WriteReadBack.NextKeeps` | query/write.go:227-313 | a write item of any kind, rolled back or not, leaves ids orderly, the temp rows of earlier nodes alone, and the relations it does not write |
| `WriteReadBack.FastPath` | query/write_fast.go:207-231 | for every eligible write item in a request, whatever came before it: if the later items leave the rows under its keys, both paths are refused together or leave the same table and give the same response, if and only if their orders agree |
| `WriteReadBack.DisturbedIff` | relexec/relexec.go:337-373 | whatever the later items do, both paths answer every eligible query without a where whose orders agree the same if and only if the rows under the node's keys are at the end what its own statement left |
| `WriteReadBack.Untouched` | relexec/relexec.go:399-454 | items that write other relations, or are rolled back, leave those rows |
| `WriteReadBack.UpdatePath` | query/write_fast.go:175-204 | the same for a where-driven update in a request |
| `WriteFast.OrdersDisagree` | query/sql.go:363-380 | the orders disagree exactly on a distinct response without order_by, of a write that is not an update-existing |
| `WriteFast.DistinctParts` | query/write_fast.go:138-171 | every such insert or upsert of rows is answered by the fast path and refused by the general one |
| `WriteParts.DistinctInsert` | query/write_fast.go:138-171 | the smallest one: one row, select distinct id |
| `WriteParts.LaterUpdate` | relexec/relexec.go:337-373 | an insert whose value a later item updates: the fast path answers the old value, the general path the new one |
| `WriteParts.LaterDelete` | relexec/relexec.go:337-373 | an insert whose row a later item deletes: the fast path answers it, the general path nothing |
| `WriteUpdate.UpdateWhereSame` | query/write_fast.go:175-204 | the where-driven update changes the same rows and answers the same in one statement as through the temp table, identities changed by the patch included, if and only if their orders agree, as long as the request's end shows the same rows |
| `WriteUpdate.EveryUpdate` | query/write_dml.go:1540-1629 | for a given where, every eligible update whose orders agree is answered the same by both paths if and only if the read-back finds the same columns at the end of the request |
| `Lens.WriteAccum.Record` | query/shape.go:172-185 | count, cleanness and first path per column describe the occurrences met so far |
| `Lens.WriteAccum.Walk` | query/shape.go:189-312 | after a walk the maps describe the occurrences of the whole expression |
| `Lens.WriteAccum.WalkColumns` | query/shape.go:214-217 | the columns of a coalesce, all at its path |
| `Lens.WriteAccum.WalkFields` | query/shape.go:189-312 | the same over the fields of an object |
| `Lens.WriteAccum.WalkArgs` | query/shape.go:189-312 | the same over the arguments of an opaque expression |
| `Lens.WriteAccum.WalkOwn` | query/shape.go:328-342 | a star meets every column of the relation but the excepted ones |
| `Lens.AccumExtractor` | query/shape.go:94-109 | a column is extracted exactly when it is met once and cleanly, at that path |
| `LensColumns.ExtractorIff` | query/shape.go:94-109 | a column is written from a path if and only if the select mentions it exactly once, counted over the whole select, and shows it at that path as it is |
| `LensColumns.StarShown` | query/shape.go:328-342 | a star shows every column but the excepted, unless a field of the same name takes its place |
| `Lens.DirectLeads` | query/shape.go:189-312 | the path of an occurrence outside opaque expressions leads, in every response, to the column's value, or to the first of the columns it is coalesced with that is not null |
| `Lens.ReadThenUpdateIff` | query/shape.go:214-223 | for every select without hidden extractors, writing back what was read leaves a row unchanged if and only if columns coalesced together hold the same value |
| `Lens.ReadThenUpdate` | query/write_dml.go:720-733 | so it leaves every row unchanged where no column is coalesced with another |
| `Lens.UpdateThenRead` | query/write_denormalize.go:57-98 | after an update each extractor path shows the payload's value where supplied, and the old one elsewhere |
| `Lens.CoalescedThenRead` | query/shape.go:214-217 | the columns of a coalesce are written together, which then shows the payload's value |
| `Lens.OthersUntouched` | query/write_dml.go:720-733 | a column without an extractor is never changed |
| `Lens.HiddenExtractorBreaks` | query/shape.go:189-312 | every extractor hidden in an opaque expression breaks the first law for some row |
| `Lens.HiddenName` | query/shape.go:189-312 | a concrete select whose hidden column is written over |
| `Lens.NameOverwritten` | query/shape.go:214-217 | a coalesce of two columns that, read and written back, puts the first over the second |
| `LensWrite.FillIs` | query/write_denormalize.go:57-98 | a column is filled if and only if the payload has something at its path, with the encoding of that |
| `LensWrite.StatementUpdates` | query/write_dml.go:955-1065 | for every select, row and payload, filling the payload and running the update statement leaves the row the lens says |
| `LensWrite.StatementReadBack` | query/write_dml.go:955-1065 | so writing back through the statement what the select read leaves the stored row as it was, columns coalesced together agreeing |
| `Execute.HoldWriter.Write` | relexec/hold.go:34-46 | bytes pass in order; nothing leaves until the buffer would overflow, and then it is released |
| `Execute.HoldWriter.Release` | relexec/hold.go:49-57 | what was held leaves first, and the writer stays released |
| `Execute.HoldWriter.Flush` | relexec/hold.go:60-65 | on success everything taken has been delivered |
| `Execute.WritePhase` | relexec/relexec.go:399-454 | the working state is the non-rollback writes in order, each item's response taken over the state it saw, savepoints undone |
| `Execute.WriteOf` | relexec/relexec.go:413-451 | one item's write, its savepoint and its rows kept aside |
| `Execute.WriteResponses` | relexec/relexec.go:349-373 | the responses of all items in order with their separators, held back as long as they fit |
| `ExecuteBody.JsonBody` | relexec/relexec.go:349-373 | in JSON the body of several items is the text of the array of their documents, that of one item its document |
| `ExecuteBody.CborBody` | relexec/relexec.go:349-373 | in CBOR the body of several items is the spelling of the array of their items, of definite length, that of one item its own |
| `ExecuteBody.SeenItem` | relexec/relexec.go:399-454 | which state an item answers from: a write undone or keeping its rows from right after itself, any other from the state all the lasting writes leave |
| `ExecuteBody.AfterItem` | relexec/relexec.go:399-454 | each lasting write takes effect where it stands in the request, the others leave no trace |
| `Execute.InTransaction` | relexec/relexec.go:329-386 | the run between begin and the deferred rollback |
| `Execute.Execute` | relexec/relexec.go:283-386 | on every run with any step failing: the database is as before or holds the committed writes; success means committed and the whole body delivered; an error with `Started` false means neither a byte nor a change; a body that fits the buffer leaves only after the commit; the commit is made if and only if every connection step through it succeeds and the client takes every earlier write, and then the request succeeds if and only if the client takes the end of the body |
| `Execute.PlayIff` | relexec/relexec.go:283-386 | a run goes through if and only if no step of the connection fails and the client takes every write, counted and in order |
| `Execute.FitsIff` | relexec/hold.go:34-65 | for a body that fits the buffer: committed exactly when every step succeeds, delivered exactly when the one write after it is taken whole |
| `Execute.TakesAll` | relexec/hold.go:34-65 | a client that takes whatever it is given never leaves an error behind a commit |
| `Execute.OnlyLasting` | relexec/relexec.go:399-454 | what is committed is exactly the non-rollback writes applied in order |
| `Execute.CutAfterCommit` | relexec/relexec.go:377-386 | a run of `Execute` with one item and a client that takes nothing: an error, `Started` true, and the write committed |
| `Reload.RunKeeps` | boot/handler.go:72-159 | the invariant of the wait group, the in-flight set and the handlers, in every state of every interleaving |
| `Reload.NobodyInside` | boot/handler.go:127-153 | between the end of `Drain` and `EndMaintenance` no request is inside or admitted and the wait group is zero |
| `Reload.NoAddInMaintenance` | boot/handler.go:72-104 | under maintenance neither the wait group nor the in-flight set grows |
| `Reload.ServedByCurrent` | boot/handler.go:72-110 | every admitted request is served by the handler current at its admission, over any number of reloads |
| `Reload.NeverHalfSwapped` | boot/reload.go:72-119 | outside maintenance handler and schema are of the same reload |
| `Reload.ReloadEnds` | boot/reload.go:72-119 | a whole reload, whatever runs in between: with the handler built, it is the one served and the schema kept is the one found if command and introspection succeeded and the old one otherwise; without, both are as before |
| `Reload.TurnedAway` | boot/handler.go:72-104 | a request that arrives during maintenance is turned away for good, any other is admitted |
| `Reload.CancelledIff` | boot/handler.go:127-153 | past the drain timeout exactly the requests admitted and still inside are cancelled |
| `Reload.Nearer` | boot/handler.go:127-153 | under maintenance every step but an arrival or a timeout brings the end nearer, and those do not push it back |
| `Reload.NeverStuck` | boot/reload.go:72-119 | under maintenance such a step is always possible |
| `Arrays.ComputeShape` | query/write_encode_complex.go:50-86 | the loop over elements finds sizes and leaves, or refuses |
| `Arrays.ShapeIff` | query/write_encode_complex.go:50-86 | an array has a shape over scalar leaves if and only if it is rectangular or holds no element |
| `Arrays.ShapeSound` | query/write_encode_complex.go:50-86 | the sizes found are those of the nesting and the leaves are in row-major order |
| `Arrays.UniformShape` | query/write_encode_complex.go:50-86 | a rectangular array has its own sizes and leaves found |
| `Arrays.ProductCounts` | query/write_encode_complex.go:50-86 | the product of the sizes is the number of leaves |
| `Arrays.EncodeArray` | query/write_encode_complex.go:100-137 | refused exactly when there is no shape or the element encoder refuses a leaf, arrays among scalars being its to take; else header, dimensions, null flag and leaves |
| `Arrays.AppendLeaf` | query/write_encode_complex.go:140-149 | a leaf with its patched length, -1 for null |
| `Arrays.AppendArray` | query/result_cbor.go:354-411 | reads exactly the arrays of the format, with its limits on dimensions and element count |
| `Arrays.ArrayReader.Walk` | query/result_cbor.go:380-411 | the recursive walk consumes one level and emits its nesting |
| `Arrays.Dimensions` | query/result_cbor.go:367-379 | the sizes and their product, refused when negative or beyond 2^31-1 in all |
| `Arrays.ArrayBack` | query/result_cbor.go:354-411 | a rectangular array written and read comes back with the same nesting and elements, up to 6 dimensions, and is refused beyond |
| `Arrays.EmptyBack` | query/write_encode_complex.go:100-137 | an array without elements, however nested, comes back empty |
| `ArrayFormat.WrittenIs` | query/write_encode_complex.go:100-149 | word by word the format of array_recv: dimensions, a null flag that is set exactly when there is a NULL, the element type, each size with lower bound 1, then each element after its length, or -1 for NULL |
| `ArrayFormat.EmptyWrittenIs` | query/write_encode_complex.go:100-137 | an array without elements is written without dimensions |
| `ArrayFormat.SentRead` | query/result_cbor.go:354-411 | any array of that format, whatever its flag, element type and lower bounds and whatever follows it, is read as its nesting up to 6 dimensions and refused beyond |
| `ArrayFormat.ReadSound` | query/result_cbor.go:354-411 | and nothing else is read: the data starts with a header of at most 6 dimensions whose sizes multiply to at most 2^31-1, then one element for each place of the nesting, whole and with a value or of negative length, and what is appended is that nesting with null for the latter |
| `TextLiteral.AppendQuoted` | query/write_encode_complex.go:296-322 | quotes and escapes exactly what must be |
| `TextLiteral.QuotedIff` | query/write_encode_complex.go:296-322 | text stays without quotes if and only if it is not empty, is no spelling of NULL in an array, and has no quote, backslash, comma, white space, nor brace or parenthesis where those mean something |
| `TextLiteral.AppendTextArray` | query/write_encode_complex.go:331-361 | accepts exactly homogeneous nestings and writes their literal |
| `TextLiteral.AppendTextRow` | query/write_encode_complex.go:363-394 | accepts exactly objects whose fields fit the columns they name, an absent one being NULL and one of no column ignored, and writes their literal |
| `TextLiteral.AppendText` | query/write_encode_complex.go:220-229 | the encoder chosen by the type, recursively; text with a NUL byte is refused |
| `TextLiteral.ArrayBack` | query/write_encode_complex.go:331-361 | an array literal parses back to its elements under section 8.15.6 of the PostgreSQL documentation, with NULL, the empty string and the word null apart, whatever follows it |
| `TextLiteral.RowBack` | query/write_encode_complex.go:363-394 | a composite literal parses back to its fields under section 8.16.6, with NULL and the empty string apart |
| `TextLiteral.LiteralBack` | query/write_encode_complex.go:220-394 | for every type made of arrays and composites, the literal of a value of the type is accepted, and stored as the value's normal form: refused when an array in it is ragged, empty for an array without elements, exactly the columns for a composite |
| `TextLiteral.NormalIff` | query/write_encode_complex.go:220-394 | a value is its own normal form if and only if its arrays are rectangular with no extent of zero but the empty one, and its composites have exactly their columns |
| `TextLiteral.SameExtents` | query/write_encode_complex.go:331-361 | the literal of an array has the extents of the array |
| `MaskBits.LiteralNames` | query/write_temp.go:401-407 | the signed literal names the word with exactly that bit, bit 63 included |
| `MaskBits.TestSees` | query/write_temp.go:409-411 | a test sees a bit if and only if it was set, whichever other bits are |
| `Presence.MaskLayout.AddColumns` | pg/info_mask.go:84-102 | for any schema, composites that contain themselves included, it ends and appends the column paths in order, each in the next word and bit |
| `Presence.SlotForInverts` | pg/info_mask.go:57-71 | the lookup of a path gives a slot if and only if that slot is the path's |
| `Presence.BitsApart` | pg/info_mask.go:45-55 | every slot lies inside the words of the mask, and no two share a bit |
| `Presence.FillMask` | query/write_denormalize.go:57-98 | after the loop the test of a slot holds if and only if the payload supplied it |
| `Structural.SplitJoin` | querystring/structural.go:79-97 | joining the segments on dots gives the key back |
| `Structural.SplitNoDots` | querystring/structural.go:79-97 | no segment has a dot |
| `Structural.SetPathIff` | querystring/structural.go:101-132 | a value can be added if and only if nothing on the way is a value and the path itself is no object |
| `Structural.SetPathAt` | querystring/structural.go:101-132 | it is added after the values already at its path, and every other path shows what it did |
| `Structural.DecodeIff` | querystring/structural.go:79-97 | a list of pairs decodes if and only if no segment is empty and no path is a strict prefix of another, whatever their order; then each path holds its values in order of appearance |
| `Structural.DecodeStructural` | querystring/structural.go:79-97 | the loop over the pairs does that |
| `Civil.EraFloor` | query/write_encode_time.go:31-44 | the era computed with truncating division is the floor, for years before Christ too |
| `Civil.LeapFloor` | query/write_encode_time.go:46-48 | leap years by truncating remainders are those of the calendar |
| `Civil.NextDay` | query/write_encode_time.go:31-61 | the next calendar day is one more, over months, leap days, centuries and the year 0 |
| `Civil.PreviousDay` | query/write_encode_time.go:31-61 | every valid date has a predecessor, one less |
| `Civil.Epoch` | query/write_encode_time.go:31-44 | 1970-01-01 is day 0 |
| `Civil.Increasing` | query/write_encode_time.go:31-61 | later dates have larger numbers |
| `Civil.Injective` | query/write_encode_time.go:31-61 | different dates have different numbers |
| `Civil.Surjective` | query/write_encode_time.go:31-61 | every integer is the number of a valid date |

## Left out

- SQL text: statements are functions on tables; how they are spelled, and the temp tables, parameters, EXPLAIN and statistics around them, are not part of this model.
- Floating point: half and single floats are kept as width and bits, `AppendEpoch` is modelled for whole seconds, and float columns are not encoded.
- RFC 3339 instants: whether a text is one is the parameter `isTime`; date texts and zone offsets are not parsed.
- CborJson.WriteJson: the spelling of strings and floats is a parameter.
- CborJsonText.JsonDocument: asks of that parameter that it spell JSON strings and numbers, and of decimals that their exponents fit 64 bits, as every decimal read does.
- Structures.StructureTable.AppendValue: takes the value a row holds, not PostgreSQL's binary form of it.
- Structures.StructureTable.AppendRecord: a record by its plan and the values of its fields, not its binary form.
- Structures.StructureTable.AppendAll: the elements of an array, not its binary form, which is in `Arrays.AppendArray`.
- Structures.StructureTable.AppendFields: the fields of a record, not its binary form.
- Composite sub-fields as columns of their own, identities and joins of several columns, and `on_conflict` on a constraint other than the key: the write model has one identity column and one-column joins.
- A `where` on a merged node; where-driven updates and deletes are items of `WriteReadBack`, by the rows their where found.
- A child embedded twice in a select: the statements of the model then see one of the joined rows.
- A read-only outgoing child of a written node: the code has no temp table to join, and the model refuses the statement.
- WriteRequest.WriteState.ExecuteWriteNode: the general path of tree writes; the roots that are fast, updates or deletes are dispatched elsewhere. Triggers, cascades and further constraints are a database that may refuse any run but changes nothing beside the statements.
- Row ids of 32 bits: the counters do not wrap.
- WriteOutcome.MergeOutcome: for a relation that one written node uses, generated keys included; shared relations are in `WriteForeseen.ForeseenMergedIff`, which asks that different nodes hold different identities.
- WriteShared.RowSurvivesIff: which rows of a shared relation stay, whatever the identities, told from the state after phase 1; where the keys can be worked out, `WriteSupplied.StaysIff` and `WriteForeseen.ForeseenRun` tell it before the run.
- WriteSupplied.SharedMergedIff: for temp rows that hold their keys when the run starts, as where the payload supplies them; the others are in `WriteForeseen.ForeseenMergedIff`. Nodes that hold the same identity are in `WriteShared.RowSurvivesIff` only.
- WriteForeseen.ForeseenRun: a key read by others that is no identity has to be a column upserts write, and an update or a delete-only node has to be given its identities; an outgoing child has one row for each parent row.
- WriteModes.ModeOutcome: for a relation one written node uses; `WriteModes.StatementOutcome` tells a single statement whatever else uses the relation.
- WriteMergeNew.MergeNewOutcome: for a relation one written node uses.
- WriteShown.ResponseIs: asks of the order of the database that no two values are each before the other, and that a value before another is before a third or has it before the other.
- WriteReadBack.FastPath: takes RETURNING in row order, breaks the ties of an order by row order on both paths, and for update-existing asks that the payload's identities differ.
- JsonMeaning.TranscodeRead: for texts shorter than 2^63/3 bytes, since lengths are 64-bit integers.
- Lens.ReadThenUpdateIff: selects of columns, coalesced columns, objects, stars and opaque expressions; a `coalesce` of anything but columns, and index hops, are not modelled.
- LensWrite.StatementUpdates: a node on its own; a null for a not-null column with a default is stored as the default, which it excludes.
- Execute.Execute: a commit that fails counts as not committed; compiling the reads is one step; the pool and the cancelling of contexts are not modelled.
- Arrays.ArrayBack: elements go through any encoder and reader of values that undo each other; binary composites are not modelled.
- TextLiteral.LiteralBack: leaves are strings; the text forms of numbers, dates and JSON are a parameter.
- Structural.DecodeStructural: starts from the key and value pairs; percent decoding and the splitting of the query string are left out.
- Configuration, logging, HTTP, tokens, routing, schema introspection, generated types and the reload command: wrappers around libraries and input or output, with only easy properties.
