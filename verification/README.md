# A model of a PDF library's object, stream, content and layout machinery

The repository is a Go library that reads, writes, encrypts, signs and lays out PDF files. This project models six
connected parts of it in Dafny and proves what each promises, for all inputs:

1. **Printing and parsing objects** (section 7.3 of PDF 32000-1), in files and in content streams, with the scanner
   that finds the end of an inline image. A reader is a byte sequence and a position; each parsing method is proved to
   do what a function of the unread bytes says, and the functions are proved to undo printing.
2. **The object graph**: resolving references through graphs with cycles, cached lookup by number with nested lookups
   of stream lengths, encryption and decryption of a store of objects, loading of cross-reference sections along `Prev`
   chains that may be cyclic, and the scan that rebuilds a broken cross-reference table.
3. **Stream filters** (section 7.4): RunLength, ASCII85 and the PNG and TIFF predictors, the last two in place.
4. **Content streams put together**: wrapping in `q` ... `Q` against the interpreter with its graphics state stack, and
   the renaming of resources when contents are merged.
5. **Layout**: placing cells in a table, drawing the table over pages with repeated headers, and wrapping text.
6. **Signing**: the buffer in which `ByteRange` and `Contents` are overwritten after the digest is taken.

A class stands for each object that the source updates in place; a function or a relation says what its methods
compute, and lemmas prove the properties of that function or relation. What the functions themselves stand for is said a
second time, in terms of bytes, lines, paths, places and steps: every spelling of an object is read as the object
(`Spellings`, `SpelledObjects`), every string on a path is enciphered with its own object's key (`CryptPaths`), every
line of a table has its number by its place (`XrefLines`), each row begins where the one before it ends (`PageGaps`),
each operation's name is looked up in its own table (`ResourceUses`), and each handler sees the state of its step
(`RunTrace`).

| files | part |
|---|---|
| `Options`, `Symbols`, `Arith` | a missing value, bytes and character classes, division |
| `Objects`, `PdfDictionary`, `ParserSpec`, `PdfParser`, `RoundTrip`, `RoundTripConverse`, `ParserLimits`, `Spellings`, `SpelledNumbers`, `SpelledObjects` | objects in files |
| `ContentSpec`, `ContentParser`, `ContentPrint`, `InlineData`, `ContentRoundTrip`, `ContentConverse`, `ContentListConverse`, `ContentLimits`, `ContentSpellings`, `ContentNumbers`, `ContentEnds` | objects and operations in content streams |
| `ResolveDeep`, `CachedLookup`, `PdfLookup`, `CryptSpec`, `CryptRoundTrip`, `CryptPaths`, `PdfCrypt`, `XrefTables`, `XrefLines`, `RepairScan` | the object graph |
| `RunLength`, `RunPackets`, `Ascii85`, `Ascii85RoundTrip`, `Ascii85Groups`, `Predictor` | filters |
| `Wrapping`, `Processor`, `RunTrace`, `Isolation`, `ResourceMerge`, `ResourceUses` | content streams put together |
| `TableGrid`, `Pagination`, `PageGaps`, `DrawingEnds`, `WrapText` | layout |
| `Signature` | signing |

## Where the code differs from what it is for

The model follows the code. Each point below is a theorem, or is built into a condition of one.

- A dictionary key of more than four bytes that ends in "null" and maps to a name does not come back, in files
  (`RoundTripConverse.RoundTripIff`) or in content streams (`ContentConverse.ReadsBackIff`). Data that is cut off after
  such a key makes both parsers index an empty look-ahead, and nothing else does (`ParserLimits.CutOffPanicsIff`,
  `ParserLimits.PanicNeedsCutOffKey`, `ContentLimits.CutOffCrashesIff`, `ContentLimits.CrashNeedsCutOffKey`).
- The numeric expression of the parser has a character range that takes in the comma, so an array such as `[,5]` is read
  for ever: any array with such a comma after trap-free elements is (`ParserLimits.StuckArrayHangs`), and nothing without
  such a comma (`ParserLimits.HangNeedsStuckComma`).
- A backslash before a byte that begins no escape sequence takes that byte with it (`Spellings.LiteralSpellingIsRead`),
  and a string whose last piece is a single octal digit is not read at the very end of the data, because the parser looks
  two bytes ahead for more digits. A hash that is followed by no two hexadecimal digits hides two bytes of a name in a file
  (`Spellings.NameSpellingIsRead`), and fails in a content stream (`ContentSpellings.BareHashIsRefused`).
- A comment before the closing bracket of an array is not passed over, and parsing fails
  (`SpelledObjects.CommentBeforeBracketFails`); anywhere else comments are.
- An integer that does not fit 64 bits is read as zero (`Spellings.IntegerSpellingIsRead`).
- In a content stream a number with a plus at its front is taken for an operand (`ContentNumbers.PlusIsOperand`), and an
  exponent with a capital E is cut off its number (`ContentNumbers.CapitalExponentIsCutOff`).
- Parameters without an operand, and a string that is never closed with all that comes after it, are dropped without an
  error (`ContentEnds.UnfinishedIsDropped`, `ContentEnds.UnclosedStringIsDropped`).
- A reference printed in a content stream comes back as two integers and the operand `R`
  (`ContentRoundTrip.ReferenceIsNotReadBack`).
- Inline image data may end in white space, or contain white space around `EI`, and still come back, when the scanner
  has just given up an `E`: `InlineData.DataReadsBackIff` gives the exact condition.
- A cross-reference stream is not encrypted but, under revision 5, is decrypted (`CryptRoundTrip.XRefStreamComesBackIff`
  says when it comes back), and a dictionary with the keys of an Encrypt dictionary stays encrypted
  (`CryptRoundTrip.LookalikeStaysEncrypted`).
- A stream that is encrypted and decrypted has its number of bytes for its Length, whatever it had before
  (`CryptRoundTrip.DecryptRestores`); what only its Length pointed to is encrypted and not decrypted
  (`CryptRoundTrip.LengthTargetIsLost`).
- A decryption that fails is forgotten: the second lookup hands the object out encrypted
  (`PdfLookup.SecondLookupHandsOutEncrypted`).
- `isWrapped` accepts `Q q` (`Wrapping.QqIsNotWrapped`).
- Merging contents that use a font, XObject or graphics state the source does not have enters a name in the
  destination, which may stand for something there: `ResourceMerge.Process` says exactly when something is lost, and
  `ResourceMerge.MergeContents` that nothing is when no such name is taken, and what each copied name stands for.
- A table with a header is drawn for ever if and only if some page after the first has no room for the header and the row
  it starts with (`DrawingEnds.DrawingEndsIff`). Without a header such a row is drawn below the margin
  (`Pagination.NothingBelowIff`).
- ASCII85 does not bring back a short last group of zeros, RunLength not the empty input, and the predictor encoder no
  empty data and nothing at all unless there is one color (`Predictor.EncoderRoundTripIff`).
- In the code for the older sections of cross references, a `Prev` that is not an integer panics; in the first section
  it is ignored, as if there were no older section. `XrefTables.LoadPanicsIff` says when loading panics.

## Model

| member | source | states |
|---|---|---|
| Objects.WriteString | pdf/core/primitives.go:274-394 | every kind of object is written as the printed form says, by a loop over elements, entries or bytes |
| Objects.WriteArray | pdf/core/primitives.go:515-528 | elements are separated by one space, also when they are composite |
| Objects.WriteDict | pdf/core/primitives.go:632-645 | keys are written in the order in which they were first set |
| Objects.PutAppends | pdf/core/primitives.go:333-394 | printing in front of more text is the object's own text followed by it |
| Objects.LookupAfterSet | pdf/core/primitives.go:648-664 | a set key has the new value and no other key changes |
| Objects.SetKeepsKeysDistinct | pdf/core/primitives.go:648-654 | setting never makes a key occur twice |
| PdfDictionary.PdfObjectDictionary.Set | pdf/core/primitives.go:648-654 | map and key list together change as one ordered dictionary: overwritten in place or appended |
| PdfDictionary.PdfObjectDictionary.Get | pdf/core/primitives.go:658-664 | the value that the ordered dictionary has for the key |
| PdfDictionary.PdfObjectDictionary.Remove | pdf/core/primitives.go:692-706 | the key leaves map and key list, and nothing else moves |
| PdfDictionary.PdfObjectDictionary.Merge | pdf/core/primitives.go:608-615 | the other dictionary's keys are set in its order |
| PdfDictionary.MergeLookup | pdf/core/primitives.go:608-615 | after a merge the merged keys have the new values and all others keep theirs |
| PdfDictionary.LookupAfterRemove | pdf/core/primitives.go:692-706 | a removed key is gone, all other keys stay, and keys stay distinct |
| PdfParser.Parser.ParseName | pdf/core/parser.go:197-247 | the loop yields the name and stops where the specification of names says |
| PdfParser.Parser.ParseNumber | pdf/core/parser.go:269-333 | the loop collects exactly the bytes of a number |
| PdfParser.Parser.ParseString | pdf/core/parser.go:336-416 | nested parentheses and escapes, up to the closing parenthesis; what each escape is worth is stated below |
| PdfParser.Parser.ParseHexString | pdf/core/parser.go:420-447 | white space is left out and an odd digit is padded |
| PdfParser.Parser.ParseArray | pdf/core/parser.go:450-476 | the elements in order, or the failure of the first that fails |
| PdfParser.Parser.ParseToken | pdf/core/parser.go:572-617 | keywords, references within 15 bytes, numbers, in that order |
| PdfParser.Parser.ParseDict | pdf/core/parser.go:621-692 | the dictionary object is built by the loop, with the case for keys ending in "null" |
| PdfParser.Parser.ParseObject | pdf/core/parser.go:527-618 | the reader ends where the specification ends, with its value or its failure |
| RoundTrip.ParsesBack | pdf/core/parser.go:527-692 | any nested trap-free object is read back from its text, stopping exactly at its end, before any text that does not go on with it; only a name or an integer can be gone on with |
| RoundTripConverse.RoundTripIff | pdf/core/parser.go:527-692 | before any text whatever, an object without fractions or repeated keys comes back if and only if every reference in it fits the look-ahead, no long "...null" key in it maps to a name, and the text does not go on with it |
| RoundTripConverse.NameReadsBackIff | pdf/core/parser.go:197-247 | a name comes back if and only if nothing or a byte that ends names is after it |
| RoundTripConverse.IntegerReadsBackIff | pdf/core/parser.go:269-333 | an integer comes back if and only if no byte of a number and no rest of a reference is after it |
| RoundTripConverse.Reads | pdf/core/parser.go:450-692 | any printed object, traps and far references included, is read as an equal object or as one that shows the difference, or not at all |
| ParserLimits.ReferenceParsesBackIff | pdf/core/parser.go:572-590 | a reference comes back if and only if it fits the look-ahead of 15 bytes |
| ParserLimits.ReadsNothingIff | pdf/core/parser.go:572-617 | exactly when parsing an object reads nothing: at a comma that looks like the beginning of a number |
| ParserLimits.ArrayNeverEnds | pdf/core/parser.go:450-476 | there the array loop makes no progress, for any array so far |
| ParserLimits.HangNeedsStuckComma | pdf/core/parser.go:527-692 | parsing hangs on no data but data with a comma in it that looks like the beginning of a number |
| ParserLimits.StuckArrayHangs | pdf/core/parser.go:450-476 | an array with such a comma after any trap-free elements is read for ever |
| ParserLimits.CutOffPanicsIff | pdf/core/parser.go:621-692 | after any trap-free entries, a dictionary that is cut off after a key and white space makes the parser panic if and only if the key is a long one that ends in "null" |
| ParserLimits.PanicNeedsCutOffKey | pdf/core/parser.go:527-692 | parsing panics on no data but data that ends, white space left out, with such a name |
| Spellings.LiteralSpellingIsRead | pdf/core/parser.go:336-416 | any text of plain bytes, letter escapes, octal escapes of one to three digits and balanced parentheses is read as the string it spells, unless it is cut off after a single octal digit |
| Spellings.OctalIsRead | pdf/core/parser.go:355-377 | an octal escape is worth 64, 8 and 1 times its digits, cut to a byte, and needs two more bytes after its first digit |
| Spellings.ThreeDigitsAreRead | pdf/core/parser.go:355-377 | every byte is read from its three octal digits |
| Spellings.HexSpellingIsRead | pdf/core/parser.go:420-447 | digits in either case, two for a byte and the last one alone with a zero, white space anywhere |
| Spellings.NameSpellingIsRead | pdf/core/parser.go:197-247 | plain bytes, coded bytes with digits in either case, and a hash that codes nothing |
| Spellings.IntegerSpellingIsRead | pdf/core/parser.go:269-333 | digits with or without a sign or leading zeros are read as their decimal value, or as zero beyond 64 bits |
| SpelledNumbers.RealSpellingIsRead | pdf/core/parser.go:269-333 | digits with a point, an exponent or both, and signs where they may be, are read as a number with exactly that text |
| Spellings.ReferenceSpellingIsRead | pdf/core/parser.go:572-590 | two numbers and an R with any white space, within 15 bytes |
| Spellings.FillBeforeObject | pdf/core/parser.go:97-143 | white space and comments before an object make no difference |
| SpelledObjects.ArraySpellingIsRead | pdf/core/parser.go:450-476 | texts that are read as objects, each before what follows it, are read as the elements of an array, whatever their spelling |
| SpelledObjects.DictSpellingIsRead | pdf/core/parser.go:621-692 | keys and values with white space and comments between them are read as the entries of a dictionary; of equal keys the later value counts |
| SpelledObjects.CommentBeforeBracketFails | pdf/core/parser.go:455-472 | a comment before the closing bracket makes parsing fail, whatever the array has so far |
| ContentParser.ContentStreamParser.ParseName | pdf/contentstream/parser.go:126-171 | as in files, but a hash needs two hexadecimal digits, and a byte from 0x80 on is added as the two bytes of its character |
| ContentParser.ContentStreamParser.ParseNumber | pdf/contentstream/parser.go:193-255 | the bytes of a number, with a small e only |
| ContentParser.ContentStreamParser.ParseHexString | pdf/contentstream/parser.go:341-372 | everything that is no hexadecimal digit is left out |
| ContentParser.ContentStreamParser.ParseArray | pdf/contentstream/parser.go:375-401 | elements in order, an operand kept as a string |
| ContentParser.ContentStreamParser.ParseDict | pdf/contentstream/parser.go:432-497 | the dictionary object is built by the loop; an end of data is told apart from an error |
| ContentParser.ContentStreamParser.ParseOperand | pdf/contentstream/parser.go:500-519 | the text up to a delimiter or white space |
| ContentParser.ContentStreamParser.ParseObject | pdf/contentstream/parser.go:524-593 | object or operand, and where the reader stops |
| ContentParser.ContentStreamParser.ScanImageData | pdf/contentstream/inline-image.go:392-455 | the scanner's states; data and pending bytes are always the bytes read |
| ContentParser.ContentStreamParser.ParseInlineImage | pdf/contentstream/inline-image.go:305-460 | entries by short or long name, then the data; unknown operands are passed over |
| ContentParser.ContentStreamParser.Parse | pdf/contentstream/parser.go:39-73 | the operations in order; an end of data inside an operation ends parsing without error |
| ContentParser.WriteOperations | pdf/contentstream/contentstream.go:81-107 | the bytes of a list of operations |
| ContentParser.WriteImage | pdf/contentstream/inline-image.go:107-151 | the entries in their fixed order, then the data between ID and EI |
| ContentPrint.PutOperationsAppends | pdf/contentstream/contentstream.go:81-107 | writing lists one after the other is writing them together |
| ContentRoundTrip.ContentParsesBack | pdf/contentstream/parser.go:39-73 | parsing what is written for any list of operations, inline images included, gives the list |
| ContentListConverse.ContentParsesBackIff | pdf/contentstream/parser.go:39-73 | a list of operations comes back from what is written for it if and only if every operation has a regular operand, no reference, trap or repeated key, and for BI alone one image with clean data |
| ContentListConverse.DataComesBackIff | pdf/contentstream/inline-image.go:392-455 | data that is not clean does not come back, wherever reading stops |
| ContentRoundTrip.ParsesBack | pdf/contentstream/parser.go:524-593 | any nested direct object is read back from its text in a content stream |
| ContentRoundTrip.OperandReadsBackIff | pdf/contentstream/parser.go:562-591 | a text before white space is read back as an operand if and only if it is a regular token that looks like no number or keyword |
| ContentRoundTrip.ReferenceIsNotReadBack | pdf/contentstream/parser.go:524-593 | every reference comes back as two integers and an operand |
| ContentConverse.ReadsBackIff | pdf/contentstream/parser.go:432-593 | an object without references and fractions comes back from a content stream if and only if no long "...null" key in it maps to a name |
| ContentLimits.CutOffCrashesIff | pdf/contentstream/parser.go:432-497 | content that is cut off after a dictionary key, trap-free entries before it, crashes the parser if and only if the key is a long one that ends in "null" |
| ContentLimits.CrashNeedsCutOffKey | pdf/contentstream/parser.go:39-73 | the parser crashes on no content but content that ends, white space left out, with such a name, inline images included |
| ContentSpellings.LiteralSpellingIsRead | pdf/contentstream/parser.go:258-338 | every spelling of a literal string is read as the string |
| ContentSpellings.HexSpellingIsRead | pdf/contentstream/parser.go:341-372 | digits in either case, with anything else between them, are read as the string |
| ContentSpellings.NameSpellingIsRead | pdf/contentstream/parser.go:126-171 | plain and coded bytes are read as the name; a plain byte from 0x80 on becomes two |
| ContentSpellings.BareHashIsRefused | pdf/contentstream/parser.go:152-161 | a hash without two digits makes parsing fail |
| ContentNumbers.IntegerSpellingIsRead | pdf/contentstream/parser.go:193-255 | digits with a minus or no sign are read as their decimal value, or as zero beyond 64 bits |
| ContentNumbers.RealSpellingIsRead | pdf/contentstream/parser.go:193-255 | so are numbers with a point or a small exponent, as their text |
| ContentNumbers.CapitalExponentIsCutOff | pdf/contentstream/parser.go:193-255 | digits before a capital E are a number by themselves |
| ContentNumbers.PlusIsOperand | pdf/contentstream/parser.go:524-593 | a plus and digits are an operand |
| ContentEnds.AfterOperations | pdf/contentstream/parser.go:39-73 | what is read after the text of any clean operations is what is read without them, failures included |
| ContentEnds.UnfinishedIsDropped | pdf/contentstream/parser.go:39-73 | parameters without an operand are dropped |
| ContentEnds.UnclosedStringIsDropped | pdf/contentstream/parser.go:258-338 | a string that is never closed is dropped with all that follows |
| ContentEnds.StrayDelimiterFails | pdf/contentstream/parser.go:500-593 | a delimiter that begins nothing makes parsing fail |
| ContentSpec.FieldNames | pdf/contentstream/inline-image.go:342-363 | each entry of an inline image has its short and its full name and no other |
| InlineData.DataReadsBackIff | pdf/contentstream/inline-image.go:392-455 | data comes back after it is written, and reading stops after its end, if and only if the scanner takes nothing in it or at its end for the end |
| InlineData.ScanSteps | pdf/contentstream/inline-image.go:392-455 | after any number of bytes, data and pending bytes are the bytes read, and the state is what has been seen of an end |
| InlineData.PlainDataIsClean | pdf/contentstream/inline-image.go:146-148 | data without EI between white space that does not end in the beginning of one comes back |
| InlineData.HiddenEndIsClean | pdf/contentstream/inline-image.go:423-431 | some data with EI between white space comes back too |
| ResolveDeep.ResolveReferencesDeep | pdf/core/utils.go:68-137 | terminates on cyclic graphs; succeeds if and only if no reachable object is a reference; then exactly the reachable values are replaced |
| ResolveDeep.Resolver.Resolve | pdf/core/utils.go:75-137 | what was gone to before stays, what is gone to is finished when it returns, and it fails only on a reference in reach |
| ResolveDeep.Resolver.ResolveValues | pdf/core/utils.go:93-127 | the loop over values, each replaced in place before the traversal goes on from it |
| ResolveDeep.NoReferenceIsLeft | pdf/core/utils.go:61-67 | after success no walk along pointers from the root, of any length, meets a reference |
| ResolveDeep.ReachableIsClosed | pdf/core/utils.go:75-137 | what is reachable is a closed set, the smallest one |
| ResolveDeep.ClosedIff | pdf/core/utils.go:75-137 | a traversal goes to the object in an indirect one, the dictionary of a stream, and every value of a dictionary or array, looked up when it is a reference |
| PdfLookup.Run | pdf/core/crossrefs.go:200-223 | over every run of lookups each number is answered by the object it stands for, decrypted exactly as often as it has to be, and by the same object every time |
| PdfLookup.LookupParser.Lookup | pdf/core/crossrefs.go:207-223 | what is stored directly is decrypted once, on first lookup, and cache hits change nothing |
| PdfLookup.LookupParser.LookupByNumber | pdf/core/crossrefs.go:239-333 | cached, missing, directly stored and packed objects |
| PdfLookup.LookupParser.LookupObjectViaOS | pdf/core/crossrefs.go:70-197 | an object of an object stream is read from the cached or looked-up container and never decrypted by itself |
| PdfLookup.LookupParser.TraceStreamLength | pdf/core/parser.go:1390-1414 | a length under lookup is not looked up again; what stays marked can be the length of no stream |
| PdfLookup.LookupParser.ParseIndirectObject | pdf/core/parser.go:1418-1606 | the object at an offset, with a nested lookup for the length of a stream |
| PdfLookup.LookupParser.Decrypt | pdf/core/crypt.go:615-634 | an object just read becomes what it stands for, or stays as it is and marked when its decryption fails |
| PdfLookup.SecondLookupHandsOutEncrypted | pdf/core/crossrefs.go:239-243 | after a failed decryption of any object or stream that can be read, the second lookup succeeds with it encrypted |
| CachedLookup.MeaningUnfolds | pdf/core/crossrefs.go:239-333 | what a number stands for satisfies one recursive equation, without caches or marks |
| CachedLookup.CycleIsHopeless | pdf/core/parser.go:1390-1400 | a length that is needed for itself is no integer at any depth |
| CachedLookup.InProgressIsHopeless | pdf/core/parser.go:1393-1397 | refusing a length that is under lookup loses nothing |
| CachedLookup.TextIsDecrypted | pdf/core/crossrefs.go:207-223 | a text stored directly is decrypted with its own number and generation |
| CachedLookup.StreamIsDecrypted | pdf/core/crossrefs.go:207-223 | so are the first bytes of a stream, as many as its length says, given or looked up |
| CachedLookup.PackedIsRead | pdf/core/crossrefs.go:70-197 | an object in an object stream is read from the clear bytes of the stream and not decrypted again |
| CachedLookup.OthersAreLeft | pdf/core/crossrefs.go:239-333 | other objects are handed out as they are stored, and a number without an entry is null |
| CryptRoundTrip.DecryptRestores | pdf/core/crypt.go:615-955 | whatever the streams have for their Length, decryption with fresh marks restores the whole store, shared and cyclic numbered objects included, but that each stream that passed through the ciphers has its number of bytes for its Length |
| CryptRoundTrip.DecryptUndoesEncrypt | pdf/core/crypt.go:615-955 | with accurate lengths the store is exactly what it was |
| CryptRoundTrip.LengthTargetIsLost | pdf/core/crypt.go:870-885 | a string that only the Length of a stream points to comes back if and only if encryption does nothing to it |
| CryptRoundTrip.EncKeepsShape | pdf/core/crypt.go:802-955 | names, keys, their order and links never change |
| CryptRoundTrip.SkippedUnchanged | pdf/core/crypt.go:925-951 | skipped entries and signature contents stay as they are |
| CryptRoundTrip.XRefStreamUnderRevision5 | pdf/core/crypt.go:566-573 | every cross-reference stream is left by encryption; decryption leaves it too unless the revision is 5 and its filter is not the identity, and then it decrypts the bytes |
| CryptRoundTrip.XRefStreamComesBackIff | pdf/core/crypt.go:615-772 | one without strings and pointers in its dictionary comes back if and only if decryption leaves it or does nothing to its bytes |
| CryptRoundTrip.LookalikeStaysEncrypted | pdf/core/crypt.go:581-594 | a dictionary that looks like an Encrypt dictionary is encrypted and never decrypted |
| CryptPaths.EncObjIsDone | pdf/core/crypt.go:802-955 | every string on a path that goes through no skipped entry becomes the filter's output for the key of its own object, everything else on such a path stays, every pointer there is followed, and every object that is newly marked has been done so, its bytes and Length included |
| CryptPaths.DecObjIsDone | pdf/core/crypt.go:615-772 | the same for decryption, which does not follow pointers to what counts as clear |
| CryptPaths.StringInNumbered | pdf/core/crypt.go:886-915 | for numbers of 32 bits: the string is enciphered or deciphered with the key of the object's number and generation, unless the filter is Identity |
| CryptPaths.BytesOfStream | pdf/core/crypt.go:820-887 | the bytes of a stream too, with the filter that its dictionary or the crypt object names |
| CryptPaths.ChainsAreFollowed | pdf/core/crypt.go:802-955 | from fresh marks, whatever a chain of pointers leads to is marked, and so done |
| PdfCrypt.Crypt.Encrypt | pdf/core/crypt.go:802-955 | the store and the marks after the traversal in place |
| PdfCrypt.Crypt.Decrypt | pdf/core/crypt.go:615-772 | the store and the marks after the traversal in place |
| PdfCrypt.Crypt.EncryptThenDecrypt | pdf/core/crypt.go:615-955 | one crypt object encrypts and decrypts a store to what it was |
| XrefTables.XrefLoader.LoadXrefs | pdf/core/parser.go:1205-1341 | the table is that of all sections visited, in order, whatever the Prev pointers do |
| XrefTables.XrefLoader.FollowPrev | pdf/core/parser.go:1291-1338 | the loop ends on cyclic chains and visits what the walk visits |
| XrefTables.XrefLoader.ParseXrefTable | pdf/core/parser.go:740-845 | the entries of a conventional section are merged in order |
| XrefTables.XrefLoader.ParseXrefStream | pdf/core/parser.go:849-1104 | the entries of a section in a stream are merged in order, also those before a row that is cut short |
| XrefTables.TableHoldsBest | pdf/core/parser.go:797-808 | each object number has its first entry of greatest generation |
| XrefTables.LoadedTable | pdf/core/parser.go:1060-1089 | the loaded table holds the best entry of the sections, each counted once |
| XrefTables.RevisitsChangeNothing | pdf/core/parser.go:1060-1089 | visiting sections again, at any later time, changes nothing |
| XrefTables.WalkIsClosed | pdf/core/parser.go:1291-1338 | in spite of the check for cycles, no section that is pointed to is missed |
| XrefTables.LoadPanicsIff | pdf/core/parser.go:1291-1338 | loading panics if and only if a section read after the first ones has a Prev that is not an integer |
| XrefLines.EntriesAreOfLines | pdf/core/parser.go:766-811 | the entries of a table are those of its lines in use, in their order, each with the number of the last header before it plus one for each entry line between, free or not |
| XrefLines.TrailerIsReached | pdf/core/parser.go:812-844 | a table is complete if and only if a readable trailer is reached, and its pointers are those of that trailer |
| XrefLines.EntriesAreOfRows | pdf/core/parser.go:1036-1093 | the entries of a stream are those of its rows, in their order, each with the number at its place in the index |
| XrefLines.ReadInOrder | pdf/core/parser.go:1205-1341 | the sections read: the first, the stream of its trailer, and then each Prev of the one before, until there is none or it was named already; and exactly when loading fails |
| RepairScan.Parser.RepairRebuildXrefsTopDown | pdf/core/repairs.go:101-187 | once only; succeeds if and only if every recognised header can be read, and then the table is that of all recognised headers |
| RepairScan.TableIsOfHeaders | pdf/core/repairs.go:168-180 | every entry is of a real header at its first digit; every header of at most 19 bytes has the first entry of greatest generation |
| RepairScan.WindowSees | pdf/core/repairs.go:125-165 | though bytes are left out of the window, it recognises exactly the headers of at most 19 bytes |
| RepairScan.HeaderIsFound | pdf/core/repairs.go:125-160 | going back from its last byte finds every header there is |
| RepairScan.HeaderMatches | pdf/core/repairs.go:86-96 | the numbers are read if and only if there is no NUL in the header's white space |
| RepairScan.FindStart | pdf/core/repairs.go:126-158 | the four loops that go back in the window |
| RunLength.EncodeBytes | pdf/core/encoding.go:1274-1339 | decoding gives the data back; no length byte before the end is 128; at most n + (n + 2) / 3 + 1 bytes |
| RunLength.DecodeBytes | pdf/core/encoding.go:1235-1266 | the runs and literals up to the end mark, or an unexpected end |
| RunLength.EmptyDoesNotComeBack | pdf/core/encoding.go:1274-1285 | the empty input is the one that fails |
| RunPackets.PacketsAreRead | pdf/core/encoding.go:1235-1266 | whatever packets an encoder writes are decoded up to the byte 128, and without it decoding fails |
| Ascii85.EncodeBytes | pdf/core/encoding.go:1576-1616 | the groups of four bytes, the last one short, and the end mark |
| Ascii85.DecodeBytes | pdf/core/encoding.go:1474-1549 | the rounds of at most five codes, with white space, z and the end mark |
| Ascii85.Base256ToBase85 | pdf/core/encoding.go:1560-1573 | the five digits of a 32-bit value in base 85 |
| Ascii85.FillKeepsLeadingBytes | pdf/core/encoding.go:1518-1545 | the padded value of a short group fits 32 bits and keeps the leading bytes |
| Ascii85RoundTrip.DecodeSpaced | pdf/core/encoding.go:1474-1549 | white space anywhere before the end mark makes no difference |
| Ascii85RoundTrip.RoundTripIff | pdf/core/encoding.go:1576-1616 | data comes back if and only if it does not end in a short group of zeros |
| Ascii85Groups.AnyGroupIsRead | pdf/core/encoding.go:1474-1549 | any five characters, white space among them or not, are read as the four bytes of their value, cut to 32 bits |
| Ascii85Groups.AnyShortGroupIsRead | pdf/core/encoding.go:1474-1549 | two to four characters at the end are filled up with 'u' and give one byte less |
| Predictor.PaethIsPaethPredictor | pdf/core/paeth.go:22-42 | the shortened arithmetic is the sample form of section 9.4 of ISO/IEC 15948, and gives a neighbour nearest to the estimate |
| Predictor.PostDecodePredict | pdf/core/encoding.go:289-407 | the output for each predictor number and any parameters, computed in place |
| Predictor.DecodePng | pdf/core/encoding.go:330-399 | every row is restored in place with the row above it |
| Predictor.DecodeRow | pdf/core/encoding.go:345-394 | one row, for each filter byte, with nothing else changed |
| Predictor.RestoredByte | pdf/core/encoding.go:345-394 | what each filter makes of a byte, from the restored bytes to its left, above it and above that to its left |
| Predictor.WhatNumbersMean | pdf/core/encoding.go:289-407 | which predictor numbers leave the data, which want whole rows, and which are refused |
| Predictor.DecodeTiff | pdf/core/encoding.go:294-322 | the rows of a TIFF prediction, restored in place |
| Predictor.PngRoundTrip | pdf/core/encoding.go:330-399 | every image of at least one row, with any filter for each row, is restored |
| Predictor.TiffRoundTrip | pdf/core/encoding.go:294-322 | every image of at least one row predicted from the left, color by color, is restored |
| Predictor.EncodeRows | pdf/core/encoding.go:434-464 | the encoder's rows with filter Sub, an error for a broken row, a panic without columns |
| Predictor.EncoderRoundTripIff | pdf/core/encoding.go:434-464 | for any number of colors, the encoder's rows are restored if and only if there is one color and there are rows |
| Wrapping.Operations.IsWrappedUp | pdf/contentstream/contentstream.go:26-46 | the loop over depths answers as the definition does |
| Wrapping.Operations.WrapIfNeeded | pdf/contentstream/contentstream.go:51-77 | the list becomes the wrapped list |
| Wrapping.WrappingEncloses | pdf/contentstream/contentstream.go:48-77 | without a beginning with more Q than q, wrapping encloses every operation, balances, and is idempotent |
| Wrapping.WrappedIsEnclosedIff | pdf/contentstream/contentstream.go:26-77 | exactly when the wrapped list is enclosed |
| Wrapping.WrappedKeeps | pdf/contentstream/contentstream.go:63-77 | the original operations stay together and in order |
| Wrapping.QqIsNotWrapped | pdf/contentstream/contentstream.go:26-46 | a list that pops first is taken for wrapped |
| Wrapping.Block.AddContents | pdf/creator/block.go:190-194 | both lists are wrapped and joined |
| Wrapping.AddAll | pdf/creator/block.go:190-194 | over any number of additions no piece is wrapped twice and the contents stay enclosed |
| Processor.ContentStreamProcessor.Process | pdf/contentstream/processor.go:216-284 | stack, state and handler calls, the first error, or the pop of an empty stack |
| Processor.ContentStreamProcessor.Pop | pdf/contentstream/processor.go:36-40 | takes off what was pushed last |
| Processor.HandlersCalled | pdf/contentstream/processor.go:269-281 | the handlers called for an operation are those for all operands and for its own, in order, up to the first that fails |
| RunTrace.RunIsTraced | pdf/contentstream/processor.go:216-284 | a run that comes to its end is a chain of steps: q saves the state, Q brings the last one back, any other operation changes the state, and then the handlers see the new state |
| RunTrace.TraceIsRun | pdf/contentstream/processor.go:216-284 | every such chain is a run that comes to its end |
| Isolation.PiecesAreIndependent | pdf/creator/block.go:188-194 | processing the joined contents is processing each wrapped piece alone; no empty stack is popped, and the stack and the state end as they began |
| Isolation.WrappingShowsTheSame | pdf/contentstream/contentstream.go:48-50 | handlers see the same states inside the wrapping as for the piece by itself |
| Isolation.EnclosedRestores | pdf/contentstream/processor.go:228-232 | enclosed contents restore stack and state, whatever operations do |
| Isolation.RestoringIsEnclosed | pdf/contentstream/processor.go:228-232 | only enclosed contents do so for every kind of state |
| Isolation.PopsEmptyIff | pdf/contentstream/processor.go:231-232 | an empty stack is popped if and only if some beginning has more Q than q |
| Isolation.BottomDoesNotMatter | pdf/contentstream/processor.go:31-40 | states further down the stack make no difference |
| Isolation.FillAndProcess | pdf/creator/block.go:190-194 | a block is filled and processed without a panic, each piece as if alone |
| ResourceMerge.MergeContents | pdf/creator/block.go:379-584 | earlier names keep their objects unless a missing name takes the place of one; every copied operation's name stands for its source object unless a missing name was entered in its place, a missing name for no object but one entered there after it; and the order is kept |
| ResourceMerge.Process | pdf/creator/block.go:405-430 | exactly when entering a name loses what a name stood for |
| ResourceMerge.UnusedName | pdf/creator/block.go:586-608 | the search ends, at the first candidate that is free or stands for the same object |
| ResourceMerge.CandidatesDiffer | pdf/creator/block.go:594-605 | candidates after the first are all different |
| ResourceUses.UsesIff | pdf/creator/block.go:401-579 | which operation takes a name from which table: Do, Tf, CS and cs, SCN and scn, sh, gs, each with its number of parameters |
| ResourceUses.CopiesAreRight | pdf/creator/block.go:401-584 | when nothing is missing, each copy differs in its name only, and the name stands in the same table for the source's object; all other operations are copied as they are |
| ResourceUses.AllFoundIff | pdf/creator/block.go:401-584 | nothing is missing if and only if the source has every name of a Do, a Tf and a gs |
| ResourceUses.MissingAreBlanked | pdf/creator/block.go:401-584 | where the source does not have the name, Do and gs name nothing in the copy and all others keep their name |
| ResourceUses.OthersAreKept | pdf/creator/block.go:401-584 | an operation that takes no name is copied as it is, whatever is missing |
| ResourceUses.FreeIff | pdf/creator/block.go:410-422 | a name can be used if it stands for nothing or for the very object; patterns and shadings are never the same |
| ResourceUses.CandidateIs | pdf/creator/block.go:586-608 | the names tried: the name, then its prefix or GS with a number, or the name with zeros |
| ResourceUses.PrefixIs | pdf/creator/block.go:586-608 | the prefix of a font's name: without the space around it and the number at its end |
| TableGrid.Table.NewCell | pdf/creator/table.go:726-782 | the cell takes the next place, its span cut to the row; cells stay sorted, disjoint and in the grid |
| TableGrid.Table.SkipCells | pdf/creator/table.go:785-791 | never goes back |
| TableGrid.Table.SkipRows | pdf/creator/table.go:794-801 | never goes back |
| TableGrid.Table.SkipOver | pdf/creator/table.go:804-811 | never goes back |
| TableGrid.Table.SetRowHeight | pdf/creator/table.go:135-142 | only an existing row changes |
| TableGrid.Table.SetHeaderRows | pdf/creator/table.go:178-193 | accepted if and only if the rows are a range of positive rows |
| TableGrid.LaterPlace | pdf/creator/table.go:726-740 | a later place is in a later row or further right, past the end of the earlier cell |
| Pagination.GeneratePageBlocks | pdf/creator/table.go:253-608 | measured rows, the range of header cells, and pages cut exactly where the next cell does not fit |
| Pagination.DrawCells | pdf/creator/table.go:411-596 | whenever drawing ends at all, the loop that jumps back to the header cells ends and draws each page as specified, every cell at its place |
| Pagination.Measure | pdf/creator/table.go:290-405 | rows grow to what their contents need, and the header cells are found |
| Pagination.ContentsFit | pdf/creator/table.go:328-340 | every measured row is high enough for all its contents |
| Pagination.EachCellOnce | pdf/creator/table.go:411-596 | the main pass draws every cell exactly once, in order, over all pages |
| Pagination.HeaderOnEveryPage | pdf/creator/table.go:455-470 | every page after the first begins with the header cells, once and in order |
| Pagination.RoomIff | pdf/creator/table.go:440-470 | unless heights are negative, there is room for header and row if and only if the row fits below the header's last cell |
| Pagination.NothingBelowTheMargin | pdf/creator/table.go:440-474 | nothing on a page reaches below the bottom margin if and only if it is the first page or has room for the header and the row it starts with |
| Pagination.NothingBelowIff | pdf/creator/table.go:440-474 | nothing of a table does if and only if that holds of every page the loop comes to, as the heights of the rows determine them |
| PageGaps.RowsFollow | pdf/creator/table.go:431-475 | cells of one row lie side by side, the next row begins where a row ends, and over skipped rows their heights are added |
| PageGaps.WhereTheFirstPageBegins | pdf/creator/table.go:431-475 | the first cell lies below the table's start by the heights of the rows before it |
| PageGaps.WherePagesBegin | pdf/creator/table.go:440-588 | a later page begins at the top margin, with the header if there is one, and the table goes on where the header's last cell ends |
| PageGaps.CellsOnPage | pdf/creator/table.go:411-596 | the cells on a page: those of the header, and then those of the table, in order |
| PageGaps.CutWhereFull | pdf/creator/table.go:440-474 | a page is cut where the next cell would reach below the bottom margin, and no sooner |
| PageGaps.EmptyWhereFull | pdf/creator/table.go:440-474 | a first page stays empty only if the first row would reach below the margin |
| PageGaps.NothingOverlaps | pdf/creator/table.go:431-588 | unless heights are negative, a later cell of another row begins no higher than an earlier one ends, header and table included |
| PageGaps.HeaderCellsAre | pdf/creator/table.go:305-319 | the header cells are exactly those in the header rows |
| PageGaps.HeightIsNeeded | pdf/creator/table.go:328-340 | no row is higher than it was set or something in it needs |
| DrawingEnds.DrawingEndsIff | pdf/creator/table.go:411-596 | drawing ends if and only if there is no header, or each page after the first has room for the header and the row it starts with |
| DrawingEnds.NeverGetsPast | pdf/creator/table.go:440-470 | from the start on, the first page without that room is begun again and again and no later cell is drawn, also when the header alone is higher than a page |
| WrapText.Paragraph.Wrap | pdf/creator/paragraph.go:258-328 | succeeds if and only if the font has every rune; the lines rebuild the text, fit, and are broken at the last space before the rune that does not fit |
| WrapText.OneWayToWrap | pdf/creator/paragraph.go:258-328 | no other lines and line ends meet this specification |
| WrapText.Paragraph.BreakLine | pdf/creator/paragraph.go:293-318 | the break before a rune that does not fit |
| WrapText.LinesAreTheText | pdf/creator/paragraph.go:258-328 | the lines, one after the other, are the text without its line feeds |
| WrapText.LineBroken | pdf/creator/paragraph.go:293-318 | what is moved to the next line fits it up to its last rune, and line and rest together did not fit |
| WrapText.WidthIsAdvance | pdf/creator/paragraph.go:331-338 | a line is as wide as its runes one after another |
| Signature.SignDictionary.WriteString | pdf/model/signature.go:46-78 | the text, and the two spans in it that hold the texts of ByteRange and Contents, apart from each other |
| Signature.WriteSigned | pdf/model/appender.go:632-710 | fails if and only if signing fails; otherwise both spans are overwritten and nothing else is |
| Signature.Patch | pdf/model/appender.go:659-663 | a span is filled with a text and spaces |
| Signature.DigestIsOfSelected | pdf/model/appender.go:588-674 | what was digested is what the ByteRange selects in the final file; the two ranges and the Contents cover the file |
| Signature.ByteRangeReadsBack | pdf/model/appender.go:655-664 | parsing the final file at its place gives the ByteRange, when its text fits |
| Signature.ContentsReadsBackIff | pdf/model/appender.go:686-702 | the Contents, hexadecimal or literal, is read back from within its place if and only if its text fits |
| Signature.RangesFitPlaceholder | pdf/model/appender.go:575-580 | it fits the placeholder for every file of less than 1 000 000 000 bytes |
| Signature.DigestRanges | pdf/model/signature_handler.go:168-179 | a validation digests exactly what the ByteRange selects, for any numbers in it |

## Left out

- Fractions: `strconv` formatting of floats in the printer and parsers; objects hold integers, and a number with a fraction is kept as its text. Layout uses reals, so rounding is not modelled.
- zlib, LZW, JPEG, CCITT, JBIG2 and JPX: code outside the repository; the predictor stage of Flate stands alone.
- Key derivation, passwords, random identifiers: ciphers are functions with the law that decryption undoes encryption, and keys are a function of object and generation number.
- File seeking, the search for the end-of-file mark and for the version: sections, slots and lines are data. The pattern for headers is modelled as a match at the beginning of a header's text.
- Repairs started inside a lookup: where the code would rebuild the table, the model of lookup returns the failure; the scan itself is modelled. The table is taken to be accurate, and containers of objects to be stored directly, as section 7.5.7 of PDF 32000-1 wants.
- PdfLookup.LookupParser.LookupByNumber: the repairs that a failed read starts, as said above.
- PdfLookup.LookupParser.ParseIndirectObject: the correction of a stream's length by the offset of the next object.
- Signature.DigestRanges: a read of nothing gives nothing even at the end of the file, as it does for files, though not for every reader; reads give as many bytes as there are.
- PdfLookup.Run: for numbers that stand for nothing it says only that lookups fail when no decryption can fail; a failed decryption may be followed by any answer for objects in that container.
- RoundTrip.ParsesBack: asks for distinct keys and for references within the look-ahead; `RoundTripConverse.RoundTripIff` is the other half.
- SpelledObjects.DictSpellingIsRead: no key of more than four bytes ends in "null"; what such keys do is in `RoundTripConverse.RoundTripIff` and `ParserLimits.CutOffPanicsIff`.
- Spellings.ReferenceSpellingIsRead: at most 15 bytes up to the R; `ParserLimits.ReferenceParsesBackIff` is about longer ones.
- ContentListConverse.ContentParsesBackIff: operations are not nil, and no parameter holds a fraction.
- ContentParser.ContentStreamParser.Parse: the operations read before an error are not part of the outcome.
- The position of a reader after a parsing error.
- GetName on an indirect object as the first filter of a stream: the filter array's first element is a direct name.
- CryptRoundTrip.DecryptRestores: asks for no Encrypt lookalike, no cross-reference stream under revision 5 and no Length that points to where there is something to encrypt; a lemma beside it shows for each what happens otherwise. Direct objects are values, so that two pointers to one direct object are not modelled.
- XrefTables: generations are not negative.
- ResourceMerge.MergeContents: the six tables are dictionaries or absent; the object behind a pattern or shading is what its wrapper writes back; operations are values, so that sharing of operations between blocks is not modelled.
- Wrapping.Block.AddContents: bounding boxes, angles and margins of blocks.
- Processor: color and matrix operations are one state update that may fail; what the colors are is not modelled.
- TableGrid: subtables, column widths, borders and alignment; a row span is always one in the code.
- Pagination.GeneratePageBlocks: contents are a needed height, and `Division` cells, which measure by a rule of their own, are left out; with a header it asks for the room without which drawing never ends, by `DrawingEnds.DrawingEndsIff`.
- WrapText.Paragraph.Wrap: the bound on widths is for widths that are not negative.
- Signature.WriteSigned: one signature dictionary; with several, the parts of the file are divided among the handlers. The length of the Contents that signing makes is not bounded, and a longer text than the placeholder is cut, as the copy in the code cuts it.
- MergePageWith, styled paragraphs, invoices, tables of contents, annotations, form fields and the FDF parser: text rewriting without token boundaries, field copying, styling, or the same parser again.
