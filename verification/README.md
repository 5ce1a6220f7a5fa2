# Verified model of the Application Tuning Parameters library

The library lets an application declare tuning parameters, writes them to a description file, loads that file in a
later run, sends the parameters to a tuning server, and turns the loop nests that the Omega Calculator generates for
the admitted values into Lua. This project models the parts of it that carry the logic and proves properties of the
model with Dafny's verifier. `dafny verify dfyconfig.toml` checks everything.

## What is modelled

**The JSON parser (`src/common/json.c`).** `JsonMachine` is the loop body of `json_parse_ex`, flag by flag, in both
passes; `JsonParser` is the same as a class whose methods assign the fields the C code assigns. A pointer to a value
is its position in allocation order; every write into a string, key area or array is checked against the memory that
was allocated, and a write outside it is the outcome `Crash`. `JsonGrammar` is a recursive reader of the same
language, written independently of the flags, and `JsonSyntax` the concrete documents with their whitespace, escapes
and trailing commas. The main results: pass 1 is the reader and its measurements; pass 2 never fails where pass 1
succeeded and fills everything to exactly what was measured; the accepted texts are exactly the printed documents,
among them (`JsonStandard`) all of RFC 8259 but for lone surrogates and sizes, with the values that RFC 8259 gives them
under an exact condition. `JsonFree` is the stackless destructor
over a memory in which neither a freed node nor a freed block can be touched again.

**The registry, its file and its loader (`src/common/atpcommon.c`, `src/common/atpdesc.c`, `src/atplib/atplib.c`).**
`RegistryModel` is the registry as a value and `AtpCommon` the tables that grow in place. `ApiModel` is the
declaration API as a state machine, `AtpLib` its functions over the tables, and `ApiLedger` the same API as a
chronological ledger, which every run of the state machine is proved to keep. `DescWriter` are the printing loops,
proved against the document of `Description`; `DescLoader` is the loader with its one scratch record, `AtpDesc` the
same over the nodes of a parse. `RoundTrip` joins them: what one process collects and writes, another process loads,
exactly when no name or expression holds a quote, a backslash or a zero byte. That nothing else survives is the work
of `LoadedStrings` (every loaded string is a string of the file), `WrittenStrings` (where strings stand in the file),
`TokenShapes` (decoding a string only loses quotes and backslashes) and `DirtyStrings` (so every dirty string that is
loaded needs a worse one that was written, and there is no worst). `Wire` is the packed array of parameter details and
the walk that unpacks it, `Lockfile` the lock across processes, `RangeQuery` the arithmetic of ranges.

**The translator (`src/atpserver/lua/parse_oc_code.lua`).** `LuaPattern` is Lua's matching with backtracking,
`OcParser` the translator on text, `LoopNest` the loop nests as trees with their C and Lua texts, conditions without
needless parentheses and blank lines included, `LoopSemantics` what both programs compute, with nil as Lua has it.
The results: on the text of every nest the translator produces the text of its image, and that text reads back as the
tree of the image. `LoopScopes` follows the C program with the variables of the loops around: `KeepsScopes` becomes
false at the first bound, tuple or condition that depends on any other variable. A program that keeps its scopes is
translated rightly, and if no loop reuses the variable of a loop around it, only such a program is. `LoopMeaning` says
without running anything which integers the loops go through and what the conditions mean, and that both programs emit
exactly that.

**The line reader (`src/atpserver/atpserver.c`).** `LineReader`, over any sequence of results of `read`.

Where the code and its documentation disagree the code is followed: the parser accepts trailing commas and a minus
without digits (`MoreIsAccepted`); supplementary code points are combined with "or" (the exact condition under which
that is right is `SurrogatePairs`); the comment that a newline is stored by `ATP_sockets_read_line` is wrong;
explorations are stored but never counted, so they are always written as an empty list; the header describes a range
as `min`, `min + step`, and so on, but the query asks for multiples of the step (`QueryIsRange` says when these agree);
parameters of a type other than 1 and 2 are accepted with a warning, but the walk over the packed array then loses its
place (`WalkRecovers`).

Properties that hold only under a condition have it stated exactly, each with an input on which the property fails:

| property | exact condition | input |
|---|---|---|
| a surrogate pair gives its UTF-16 code point | `JsonUnicode.SurrogatePairs` | `JsonUnicode.PairReadWrongly` |
| a text of RFC 8259 is read as its value | `JsonStandard.ValueMeaning` | `JsonStandard.InexactPair` |
| the description file reads back as its registry | `RoundTrip.WriterReadBack` | `RoundTrip.QuotedNameIsLost` |
| a registry that was written is loaded unchanged | `RoundTrip.RegistryComesBack` | `RoundTrip.QuotedNameIsLost` |
| the loader's uninitialised record does no harm | `LoaderProofs.StaleRecord` | `LoaderProofs.StaleRecordFaults` |
| the walk over the packed array finds every parameter | `Wire.WalkRecovers` | `Wire.OtherTypeIsLost` |
| no two writes without a start between them | `Lockfile.TwoCanWrite` | `Lockfile.TwoWriters` |
| a range query asks for the values of the range | `RangeQuery.QueryIsRange` | `RangeQuery.OddRangeDiffers` |
| the Lua program does what the C program does, where no loop reuses a variable | `LoopScopes.LuaIsRight` | `LoopInputs.LeftoverDecided` |

## Model

| member | source | states |
|---|---|---|
| JsonParser.JsonParseEx | src/common/json.c:221-906 | Null exactly for the texts the recursive reader rejects; otherwise the root of completely filled nodes of the value the reader returns, whatever fresh memory holds. |
| JsonParser.Parser.Round | src/common/json.c:273-900 | One round of the loop, with its fall-through from strings to values, changes the fields as one step of the machine does. |
| JsonParser.Parser.RunPass | src/common/json.c:273-901 | The loop ends, with the verdict and the nodes of the machine's run. |
| JsonParser.Parser.NextPass | src/common/json.c:261-271 | Between the passes everything but the measured nodes starts over, at the root of the chain. |
| JsonPass1.Pass1 | src/common/json.c:261-906 | On every text pass 1 ends, accepts exactly what the reader reads, and leaves one node per value in document order with kinds, parents, scalars and measured lengths. |
| JsonPass1.Number1 | src/common/json.c:733-841 | The digit-by-digit lexing of a number, with wrap-around to 64 bits, accepts and stops where the reader does, with its value. |
| JsonPass2.ExtentsAgree | src/common/json.c:646-662 | The greedy skip of pass 2 stops where the lexer of pass 1 stopped, exactly when that byte is no digit, sign, `e` or point. |
| JsonPass2.Pass2 | src/common/json.c:109-167 | For every text pass 1 accepts, pass 2 accepts, takes the values off the chain in order and fills strings, key areas, arrays and objects completely. |
| JsonTheorems.TwoPassesCorrect | src/common/json.c:221-906 | Both passes together: rejected exactly where the reader fails, otherwise the laid-out nodes of the reader's value; never a write outside allocated memory, never an endless loop. |
| JsonTheorems.PassesAgree | src/common/json.c:109-191 | Whatever pass 1 accepts pass 2 accepts, with the same root, and every string, key area, array and object ends with exactly the length and bytes that pass 1 measured. |
| JsonTheorems.LaidFills | src/common/json.c:117-164 | Node by node, what pass 2 leaves is the measured node with its memory filled to the measured size. |
| JsonTheorems.LaidRepresents | src/common/json.c:169-191 | The filled nodes are a linked tree that stands for the value: each child is found in its container, names it as its parent, and every key ends in a zero byte. |
| JsonTheorems.ParseIsReading | src/common/json.c:221-906 | Parsing fails exactly when reading does, and otherwise the returned nodes stand for the value read. |
| JsonSyntax.ValueShown | src/common/json.c:483-726 | Reading a printed value, with any whitespace, escapes and trailing commas, gives the value back and ends where it ends. |
| JsonSyntax.NumberShown | src/common/json.c:733-841 | The same for numbers, including a lone minus. |
| JsonSyntax.StringShown | src/common/json.c:279-431 | The same for strings, with plain characters, simple escapes, code units and surrogate pairs. |
| JsonLanguage.SourceAccepted | src/common/json.c:494-511 | A document with blanks around it, and anything after a zero byte, is read as its value. |
| JsonLanguage.AcceptedSource | src/common/json.c:221-906 | Conversely every accepted text is the printing of some document, with the value that was read. |
| JsonLanguage.AcceptedLanguage | src/common/json.c:236-906 | The parser accepts exactly the printings of documents, with or without a byte order mark, and returns exactly the nodes of the document's value. |
| JsonStandard.CharactersExact | src/common/json.c:47-61 | White space, decimal and hexadecimal digits are the characters of tables written out by RFC 8259, with the values of the tables. |
| JsonStandard.MarkSkipped | src/common/json.c:236-242 | What is skipped in front of a text is U+FEFF in UTF-8, once, and nothing else. |
| JsonStandard.EscapesRead | src/common/json.c:287-431 | In every text the escapes of section 7 of RFC 8259 are read as the bytes 0x22, 0x5C, 0x2F, 0x08, 0x0C, 0x0A, 0x0D and 0x09, and any other character after a backslash, but for `u`, as itself. |
| JsonStandard.UncountableIsRefused | src/common/json.c:255-285 | A string of more than 4294967287 bytes, or a list with more items or members, is refused. |
| JsonStandard.ValueMeaning | src/common/json.c:221-906 | A document of RFC 8259 is read as its value by tables and UTF-8 of their own, exactly when no surrogate pair has bit 0x40 of its high half set and integers have 64 bits. |
| JsonStandard.StandardAccepted | src/common/json.c:221-906 | Every text of RFC 8259 whose surrogates are paired and whose lists and strings can be counted is accepted, with the nodes of a value, which is its value by RFC 8259 under exactly that condition. |
| JsonStandard.MoreIsAccepted | src/common/json.c:515-535 | A lone minus is accepted as 0, and `[1,]` as `[1]`. |
| JsonFlags.RoundKeepsLegal | src/common/json.c:273-900 | In the validating pass a round leads from a legal combination of flags and kind of value to a legal one. |
| JsonFlags.StateAlwaysLegal | src/common/json.c:273-900 | So at every head of the loop of the validating pass, on every text. |
| JsonFlags.RoundKeepsFlags | src/common/json.c:273-900 | In either pass, whatever the nodes hold: an escape is pending only inside a string, a colon only while an object seeks a value, no comma inside a string, and next and reproc are consumed. |
| JsonFlags.FlagsAlwaysLegal | src/common/json.c:273-900 | So at every head of the loop in either pass. |
| JsonUnicode.Utf8RoundTrip | src/common/json.c:340-373 | The bytes written for a code point are well-formed UTF-8 (section 3 of RFC 3629), decode back to it, and are as many as were measured. |
| JsonUnicode.OneEncoding | src/common/json.c:340-373 | A code point has one well-formed sequence, so that those properties determine the bytes. |
| JsonUnicode.EscapeWritesUtf8 | src/common/json.c:298-373 | Every accepted `\u` escape adds one well-formed sequence for the computed code point. |
| JsonUnicode.SurrogatePairs | src/common/json.c:312-332 | A surrogate pair gives the UTF-16 code point (section 2.2 of RFC 2781) exactly when bit 0x40 of the high surrogate is clear, and is 0x10000 too small otherwise. |
| JsonUnicode.PairReadWrongly | src/common/json.c:331-331 | The pair of U+20000 is read as U+10000. |
| JsonFree.Memory.ValueFree | src/common/json.c:955-1003 | On any linked tree whose blocks are live: the nodes of the tree are freed, each once, in the stated order, each with the block it has, if it has one; no node and no block is read or freed after it has been freed, and nothing else changes; a null root changes nothing. |
| JsonFree.FreesTree | src/common/json.c:962-1002 | The loop, started at the root of a linked tree whose blocks are live, frees it without touching freed memory and continues at the parent, in a number of rounds fixed by the tree. |
| JsonFree.LiveOnly | src/common/json.c:964-1002 | A round of the loop that is not an error reads and frees only what is live, and what it frees is live no more. |
| JsonFree.OrderIsExact | src/common/json.c:962-1002 | The order of freeing has every node exactly once, and the loop takes two rounds per node less one. |
| JsonFree.ChildrenFirst | src/common/json.c:985-1001 | For every node of the tree, whatever is below it is freed before it. |
| JsonFree.OwnedIsExact | src/common/json.c:968-997 | Freed in an order without repetition, exactly the nodes that have a block have it freed, each once. |
| JsonRelease.AllReleased | src/common/json.c:955-1003 | The nodes of a parse are a linked tree without repetition that covers them all, and the blocks to be freed are exactly those the parse allocated. |
| JsonRelease.ParseAndFree | src/common/json.c:949-1010 | Parsing any text and freeing the result leaves no live node and no live block, and frees every node and every block of the parse once. |
| RegistryModel.IndexOf | src/common/atpcommon.c:111-121 | The first place of a name, or that it does not occur. |
| RegistryModel.FindUnique | src/common/atpcommon.c:144-166 | A parameter of the name in some domain, or that no domain has one. |
| RegistryModel.UniqueIsFound | src/common/atpcommon.c:144-166 | With unique names it is the one parameter of that name, although later domains override earlier ones. |
| RegistryModel.DomainAdded | src/common/atpcommon.c:189-219 | Adding a domain keeps the registry well-formed. |
| RegistryModel.ParamAdded | src/common/atpcommon.c:224-244 | Adding a parameter whose name no domain has keeps it well-formed. |
| RegistryModel.ValuesSet | src/common/atpcommon.c:270-281 | Setting values that fit the type keeps it well-formed. |
| RegistryModel.ConstraintAdded | src/common/atpcommon.c:247-266 | Adding a constraint whose name the domain does not have keeps it well-formed. |
| AtpCommon.Registry.DomainFind | src/common/atpcommon.c:100-123 | The first domain of the name; a null name stands for the default domain. |
| AtpCommon.Registry.ParamFind | src/common/atpcommon.c:126-141 | The first parameter of the name in the domain. |
| AtpCommon.Registry.ParamFindUnique | src/common/atpcommon.c:144-166 | The search across domains, in which only the inner loop is left early. |
| AtpCommon.Registry.ConstraintFind | src/common/atpcommon.c:169-185 | The first constraint of the name in the domain. |
| AtpCommon.Registry.DomainNew | src/common/atpcommon.c:189-219 | An existing domain is returned, a new one appended; no write past the allocated cells, also when the table grows. |
| AtpCommon.Registry.ParamNew | src/common/atpcommon.c:224-244 | One parameter more at the end of its domain, without values; no write past the allocated cells. |
| AtpCommon.Registry.ConstraintNew | src/common/atpcommon.c:247-266 | One constraint more at the end of its domain; no write past the allocated cells. |
| AtpCommon.Registry.ParamAddValues | src/common/atpcommon.c:270-281 | The values of one parameter are replaced by a copy, and nothing else changes. |
| AtpCommon.Registry.ExplorationNew | src/common/atpcommon.c:284-294 | Nothing that is ever read changes. |
| AtpCommon.Registry.Init | src/common/atpcommon.c:40-62 | The first call makes the default domain and sets the collection flag to -1; later calls change nothing. |
| AtpCommon.Registry.GenDescfile | src/common/atpcommon.c:297-372 | The lock is refused, or created; then the file that can be opened holds exactly the text of the registry's document. |
| AtpCommon.WrittenWhen | src/common/atpcommon.c:307-316 | It refuses exactly when the lock file is there, creates the lock otherwise, and writes exactly when it created the lock and the file can be opened. |
| DescWriter.PrintParam | src/common/atpcommon.c:328-338 | The printed parameter is the document of its range, type and default. |
| DescWriter.PrintDomain | src/common/atpcommon.c:322-367 | The printed domain is the document of its parameters, constraints and empty explorations. |
| DescWriter.RegistryShown | src/common/atpcommon.c:319-370 | The lines of the file, one after the other, are the text of one JSON document. |
| Description.DigitsRead | src/common/atpcommon.c:332-338 | Decimal numbers read back as themselves, without leading zeros. |
| Description.SignShown | src/common/atpcommon.c:332-338 | A minus stands in front of negative numbers only, and 0 is `0`. |
| Description.RegistryErased | src/common/atpcommon.c:318-371 | The document stands for the tree of the registry, and is a valid document exactly when every name and expression can stand between quotes as it is. |
| DescLoader.CutTo32 | src/common/atpdesc.c:203-209 | An integer of the file becomes the one 32-bit integer congruent to it, so it is kept exactly when it has 32 bits. |
| DescLoader.TypeThroughInt8 | src/common/atpdesc.c:206-207 | A type goes through a signed byte and comes back, unchanged exactly when it is a byte. |
| DescLoader.IntegersFit | src/common/atpdesc.c:200-209 | Integers are written within the memory allocated for a range or for explorations exactly as long as there is room for all of them; those of a range stand there in order, cut to 32 bits. |
| DescLoader.ArrayRoom | src/common/atpdesc.c:160-178 | An array of `n` items has room for `n` integers of a range, and for `4n` of explorations. |
| LoaderProofs.FieldsLoaded | src/common/atpdesc.c:84-101 | The fields of a parameter are collected in the record: values with their count, type and default. |
| LoaderProofs.ParamsLoaded | src/common/atpdesc.c:130-137 | After any number of parameters all but the last have been committed in order, and the last is pending. |
| LoaderProofs.ConstraintsLoaded | src/common/atpdesc.c:138-143 | The same for constraints. |
| LoaderProofs.DomainLoaded | src/common/atpdesc.c:103-157 | What is pending after a domain completes it, although the constraint and exploration sections ran before the last commit. |
| LoaderProofs.TreeLoaded | src/common/atpdesc.c:41-63 | Delayed commits lose nothing: if the uninitialised record has nothing pending, every parameter and constraint of a tree of the written shape is committed once, in order, to its own domain, into any registry, and no memory is misused. |
| LoaderProofs.StaleRecord | src/common/atpdesc.c:268-270 | A file with domains is loaded like that exactly when the uninitialised record does not claim to be in a domain, or claims it with both counters zero. |
| LoaderProofs.StaleRecordFaults | src/common/atpdesc.c:114-118 | An uninitialised record that claims to be in a domain, with a parameter to commit and no domain, misuses memory on every tree of the written shape with at least one domain. |
| LoaderProofs.MergeIsIdentity | src/common/atpdesc.c:119-122 | Merging a well-formed registry into a fresh one gives that registry. |
| LoaderProofs.FreshLoad | src/common/atpdesc.c:103-221 | Loading the tree of a well-formed registry into a fresh one gives that registry, exactly when the uninitialised record has nothing pending. |
| OtherTrees.BareParam | src/common/atpdesc.c:41-54 | A parameter without fields, in a file of one domain, is loaded with type and default 0 and no values. |
| OtherTrees.BareExploration | src/common/atpdesc.c:200-202 | An integer where explorations are expected, outside any array, is written through a null pointer. |
| OtherTrees.ArrayOnTop | src/common/atpdesc.c:160-191 | Inside an array at the top the names of domains are sections: no domain is added and nothing is committed. |
| AtpDesc.Loader.ProcessValue | src/common/atpdesc.c:185-221 | The walk over the nodes of a parse does to the record and the registry what the loader does on the value they stand for. |
| AtpDesc.Loader.ProcessObject | src/common/atpdesc.c:103-157 | The same for objects, member by member, with the commits at the end of the outermost one. |
| AtpDesc.Loader.ProcessArray | src/common/atpdesc.c:160-182 | The same for arrays, with their allocations. |
| AtpDesc.Loader.CommitParam | src/common/atpdesc.c:41-54 | A pending parameter is added with its values, or the record lacks what is needed. |
| AtpDesc.Loader.CommitConstraint | src/common/atpdesc.c:56-63 | The same for a pending constraint. |
| AtpDesc.ParseAtpDesc | src/common/atpdesc.c:224-274 | A missing, empty or unacceptable file changes nothing; a file that cannot be opened is a null pointer passed to `fclose`; otherwise the registry is initialised and the parsed tree loaded into it. |
| LoadedStrings.LoadedFrom | src/common/atpdesc.c:41-221 | Whatever object is loaded, every name and expression of the registry was there before or is a string of the object, up to its first zero byte. |
| LoadedStrings.ReadValueIn | src/common/json.c:279-431 | Every string of a value that is read is a token of the text. |
| TokenShapes.Decoded | src/common/json.c:279-431 | Decoding what stands between two quotes gives no more quotes, backslashes and zero bytes than it has, fewer bytes if it has any, and the same bytes if it has none. |
| TokenShapes.QuoteInside | src/common/json.c:381-391 | A quote inside a string follows a backslash, and reading goes on after it. |
| WrittenStrings.FileIn | src/common/atpcommon.c:318-371 | Every backslash of the file is in a name or expression, which stands between quotes, and the next quote after these follows a brace or a line break. |
| DirtyStrings.WorseString | src/common/json.c:279-431 | In such a file every token that decodes to a string with a quote or backslash comes from a worse string that was written. |
| DirtyStrings.AllClean | src/common/json.c:279-431 | A finite set in which every dirty string needs a worse one has none. |
| WriterLimits.FirstQuote | src/common/json.c:317-431 | Reading past an escape gives fewer bytes than stand before the next quote, or an earlier quote. |
| WriterLimits.StringForced | src/common/atpcommon.c:330-350 | A string printed as it is and read back unchanged contains no quote, backslash or zero byte, and ends where it was printed. |
| WriterLimits.ValueForced | src/common/atpcommon.c:318-371 | A document printed with its strings as they are and read back as its own value is a valid document; so is one with clean strings that is read back as anything. |
| RoundTrip.WriterReadBack | src/common/atpcommon.c:318-371 | The description file of a registry reads back as the registry's tree exactly when all its names and expressions are free of quotes, backslashes and zero bytes. |
| RoundTrip.QuotedNameIsLost | src/common/atpcommon.c:330-330 | A quote in the name of the only parameter: the file is not read back as the registry's tree, and what is loaded from it is not the registry. |
| RoundTrip.RegistryComesBack | src/common/atpcommon.c:297-372 | A well-formed registry with all values set comes back the same, in order, when its file is parsed and loaded into a fresh registry, exactly when it is clean. |
| RoundTrip.CleanComesBack | src/common/atpdesc.c:268-270 | A clean one comes back exactly when the loader's uninitialised record has nothing pending. |
| RoundTrip.CollectedIsWritten | src/atplib/atplib.c:168-174 | A process that collected and ended has removed the lock once; then the call that ended it was refused if it found the lock file, and otherwise created the lock and, if it could open the file, wrote the text of the registry, once. |
| RoundTrip.CollectedIsApplied | src/common/atpdesc.c:276-304 | After any run of calls in DTA mode, a process outside DTA mode that finds the written file has the same registry from its first call on, exactly when the collected names and expressions are clean. |
| ApiLedger.ParamDeclared | src/atplib/atplib.c:18-45 | An active declaration of a name that no domain has adds one parameter, with the type and default given and no values, at the end of the first domain of its name or of a new one; everything that was there stays, unchanged and in its place. |
| ApiLedger.ParamRefused | src/atplib/atplib.c:33-38 | A name that some domain has ends the collection; the domain named is there afterwards, and nothing else has changed. |
| ApiLedger.ValuesAdded | src/atplib/atplib.c:49-83 | The values go to the first parameter of the name in the first domain of its name, if there is one, there are some, and a range, whose type is 1, gets three; nothing else changes. |
| ApiLedger.ConstraintDeclared | src/atplib/atplib.c:86-111 | A constraint whose name its domain does not have is added at the end of it; a name it has ends the collection; without the domain nothing happens. |
| ApiLedger.Ended | src/common/atpcommon.c:307-316 | Ending an active collection refuses the lock exactly when the lock file is there; otherwise the lock is created, and the file is written if and only if it can be opened. |
| ApiLedger.CallEnds | src/atplib/atplib.c:168-174 | So does every call that ends a collection; a call that does not touches no file. |
| ApiLedger.RunIsLedger | src/atplib/atplib.c:18-174 | After any run in DTA mode the registry is the ledger of the run sorted by domain: the parameters declared while the collection was active, in order, each with its last values that fitted, and likewise the constraints; and the files have been touched as what the closing call found says. |
| ApiLedger.EndedByOne | src/atplib/atplib.c:168-174 | A collection that has ended was ended by one call, and nothing has happened since. |
| ApiModel.RegistryInvariant | src/atplib/atplib.c:18-111 | Over every run of calls in DTA mode: domain names unique, parameter names unique across domains, constraint names unique per domain, ranges with three values if any, and files touched at most by one removal, one creation and one write. |
| ApiModel.ApplyKeeps | src/atplib/atplib.c:18-174 | Every single call keeps that invariant. |
| ApiModel.Frozen | src/atplib/atplib.c:150-174 | Once collection has ended, no sequence of calls in DTA mode changes the registry or touches a file. |
| ApiModel.CollectionMovesForward | src/common/atpcommon.c:65-83 | In DTA mode the collection flag only moves from -1 to 1 to 0, and no call leaves it at -1. |
| ApiModel.RatNeverWrites | src/atplib/atplib.c:152-157 | Outside DTA mode no sequence of calls collects or writes. |
| ApiModel.LoadedOnce | src/common/atpdesc.c:276-304 | After the file has been loaded no call, in whichever mode, changes anything. |
| ApiModel.NothingToLoad | src/common/atpdesc.c:224-256 | Outside DTA mode a description file that is missing, empty or not accepted leaves the library as it was. |
| ApiModel.NotOpened | src/common/atpdesc.c:224-256 | A file that cannot be opened is a null pointer passed to `fclose`, unless one has been loaded before. |
| ApiModel.AcceptedIsLoaded | src/common/atpdesc.c:276-304 | A file that is accepted is loaded into the registry, which is initialised before if need be, and the collection is off. |
| AtpLib.Library.AtpInitCollection | src/atplib/atplib.c:150-166 | Loads and stays inactive, or initialises and becomes active, by execution mode. |
| AtpLib.Library.AtpParamDeclare | src/atplib/atplib.c:18-45 | A new parameter in its domain, which is created first if need be; a name already in use ends the collection. |
| AtpLib.Library.AtpParamAddValues | src/atplib/atplib.c:49-83 | The values are set, unless an argument is null, there are none, the domain or parameter is unknown, or a range is not given three. |
| AtpLib.Library.AtpConstraintDeclare | src/atplib/atplib.c:86-111 | A new constraint in its domain; a name already in use there ends the collection. |
| AtpLib.Library.AtpExplorationDeclare | src/atplib/atplib.c:114-131 | No effect beyond starting the collection. |
| AtpLib.Library.AtpEndCollection | src/atplib/atplib.c:168-174 | An active collection ends and the description file is written; otherwise nothing happens. |
| AtpLib.Library.AtpParamGet | src/atplib/atplib.c:134-146 | The default of the parameter that the search across domains finds. |
| AtpLib.Library.LoadDescFile | src/common/atpdesc.c:276-304 | At most one successful load. |
| AtpLib.LoadKeepsDefault | src/common/atpcommon.c:105-109 | No description file, whatever it holds, removes or renames the default domain, so that a null domain name is always found. |
| Wire.PackedLength | src/common/atpcommon.c:480-482 | The packed array has three entries per parameter and one per value. |
| Wire.PackedAt | src/common/atpcommon.c:491-516 | The entry of each parameter starts where those before it end: its type, its default, the number of its values if the type is 2 and otherwise its range divided by its step, cut off towards zero, then its values. |
| Wire.AllParamsAt | src/common/atpcommon.c:491-497 | The parameters are taken domain by domain, each domain in its order. |
| Wire.ParameterDetails | src/common/atpcommon.c:478-519 | The array is exactly the packed entries of all parameters in order, every slot written, none outside. |
| Wire.Totals | src/common/atpcommon.c:377-412 | The numbers of parameters and of values, once all values have been set. |
| Wire.UnpackDetails | src/atpserver/atpserver.c:613-633 | The walk with its running index, which stops where it would leave the array. |
| Wire.WalkRecovers | src/atpserver/atpserver.c:613-633 | The walk recovers every parameter's type, default and values exactly when for each parameter the stride it takes is the number of values packed. |
| Wire.StrideMeaning | src/atpserver/atpserver.c:620-628 | That is so for type 2 always, for type 1 exactly with three values, and for other types exactly when there are as many values as steps. |
| Wire.RegistryRecovered | src/common/atpcommon.c:500-505 | For registries built by the API from ranges and enumerations it always does. |
| Wire.OtherTypeIsLost | src/atpserver/atpserver.c:625-625 | A parameter of another type that the walk does not recover. |
| Lockfile.CreationsSeparated | src/common/atpcommon.c:18-37 | In every interleaving, between two creations of the lock some process removed it. |
| Lockfile.SingleWriter | src/common/atpcommon.c:307-309 | If all starts come before all ends and all processes finish, exactly one writes. |
| Lockfile.EveryScheduleFinishes | src/common/atpcommon.c:307-311 | That is so in every run in which each process starts once before any of them ends and then has its two steps, in whatever order: all finish and exactly one writes. |
| Lockfile.DoneInTime | src/atplib/atplib.c:168-174 | Every process is done after at most three steps of its own, whatever the others do. |
| Lockfile.RefusedForGood | src/common/atpcommon.c:308-309 | A process that has been refused the lock neither tries again nor writes. |
| Lockfile.WritesSeparated | src/common/atpcommon.c:307-311 | Two writes without a start between them need a start that fell between a creation and its write. |
| Lockfile.OnceEach | src/common/atpcommon.c:18-26 | No process creates the lock twice or writes twice. |
| Lockfile.TwoWriters | src/common/atpcommon.c:58-58 | A start between a creation and its write lets two processes write with no start between the writes. |
| Lockfile.TwoCanWrite | src/common/atpcommon.c:18-58 | Two writes with no start between them can follow a state exactly when two processes could write, one of which has not started or holds the lock. |
| LineReader.Reader.MyRead | src/atpserver/atpserver.c:429-455 | The next byte of the stream, its end or an error, whatever is buffered; interruptions are retried. |
| LineReader.Reader.ReadLine | src/atpserver/atpserver.c:457-491 | The line and the code that the stream determines, written within the buffer and terminated unless there was an error; the rest of the stream stays unread. |
| LineReader.LineSplits | src/atpserver/atpserver.c:466-490 | Nothing lost, duplicated or reordered: the line is the next bytes up to a newline, the end, an error or the limit, and the code tells how many were taken. |
| LineReader.ManySplit | src/atpserver/atpserver.c:457-491 | Over any number of calls the stream is, in order, the bytes of each line with what ended it (a newline, the end, an error, or the limit), and then what is left unread; no call that met the end leaves anything. |
| LineReader.ChunksDoNotMatter | src/atpserver/atpserver.c:433-450 | Two sequences of results of `read` with the same bytes between the same ends and errors, however cut into chunks and interrupted, give the same lines over any number of calls. |
| RangeQuery.MultiplesAreAdmitted | src/common/atpcommon.c:604-606 | The values the query lets through are the multiples of the step in the range, in increasing order. |
| RangeQuery.ReportedCount | src/common/atpcommon.c:504-504 | There are as many as reported, or one more, exactly when the remainder of the maximum does not exceed that of the number before the minimum. |
| RangeQuery.QueryAgainstRange | src/common/atpcommon.c:560-562 | There are as many as the described range has, under the same condition. |
| RangeQuery.QueryIsRange | src/common/atpcommon.c:560-562 | They are the values of the described range exactly when it starts at a multiple of its step. |
| RangeQuery.OddRangeDiffers | test/test.c:35-36 | For the range of the example program not one value is the same. |
| LuaPattern.RunLength | src/atpserver/lua/parse_oc_code.lua:36-36 | The longest run of a class. |
| LuaPattern.ClassesExact | src/atpserver/lua/parse_oc_code.lua:61-61 | The classes of letters and digits and of white space are exactly these characters. |
| LuaPattern.PairNeeded | src/atpserver/lua/parse_oc_code.lua:44-44 | A pattern that starts with two literal characters matches nowhere in text without the pair. |
| OcParser.ParseTerm | src/atpserver/lua/parse_oc_code.lua:145-198 | The last of the five tests that succeeds decides; an increment gives nil. |
| OcParser.ParseFor | src/atpserver/lua/parse_oc_code.lua:79-111 | The head of the Lua loop from the three terms, or the error of joining nil. |
| OcParser.ParseLine | src/atpserver/lua/parse_oc_code.lua:33-69 | One line: the tests in order, with the indentation they change. |
| OcParser.Translate | src/atpserver/lua/parse_oc_code.lua:23-74 | The loop over the lines. |
| OcLines.ForFound | src/atpserver/lua/parse_oc_code.lua:37-37 | The greedy pattern of a `for`, after backtracking, ends at its closing parenthesis. |
| OcLines.ThirdTerm | src/atpserver/lua/parse_oc_code.lua:166-183 | An increment by one gives nothing, another increment its step. |
| OcConditions.CondTranslated | src/atpserver/lua/parse_oc_code.lua:114-121 | The three replacements turn every condition of C, with `&&` and `||` in parentheses only where these are needed, into the same condition of Lua. |
| OcTranslation.ForLine | src/atpserver/lua/parse_oc_code.lua:36-42 | The line of a `for` becomes the head of a numeric `for`, one level deeper. |
| OcTranslation.IfLine | src/atpserver/lua/parse_oc_code.lua:44-50 | The line of an `if`, with any such condition, becomes the head of a Lua `if`, one level deeper. |
| OcTranslation.EndLine | src/atpserver/lua/parse_oc_code.lua:53-59 | A closing brace becomes `end`, one level up. |
| OcTranslation.EndLevel | src/atpserver/lua/parse_oc_code.lua:53-59 | On any line with no more than a closing brace, two characters of indentation go, or what there is of them, and `end` follows. |
| OcTranslation.CallLine | src/atpserver/lua/parse_oc_code.lua:62-68 | A statement becomes the appending of its tuple. |
| OcTranslation.BlankLine | src/atpserver/lua/parse_oc_code.lua:65-70 | A line of blanks becomes the comment line, at the same level. |
| OcProgram.LinesOfJoined | src/atpserver/lua/parse_oc_code.lua:31-31 | `gmatch` gives back the lines of a text and one empty line more. |
| OcProgram.NoMissingBreak | src/atpserver/lua/parse_oc_code.lua:31-31 | A line break that is missing at the end of the text makes no difference to the output. |
| OcProgram.StmtTranslated | src/atpserver/lua/parse_oc_code.lua:28-71 | The lines of any nest become the text of its image, and the indentation comes back to what it was. |
| OcProgram.ProgramTranslated | src/atpserver/lua/parse_oc_code.lua:23-74 | The C text of every program of nests, with blank lines between and after statements, is translated into the Lua text of its image. |
| LuaBlocks.OutputIsTree | src/atpserver/lua/parse_oc_code.lua:28-71 | Read as Lua blocks, the output is the image of the source node by node: every block is closed where the source closes it. |
| LuaBlocks.GenFileTranslated | src/atpserver/lua/gen_file.lua:18-25 | The output that the repository keeps is that of two loops followed by a blank line. |
| LoopSemantics.LoopAgrees | src/atpserver/lua/parse_oc_code.lua:97-107 | Testing and incrementing with a bound evaluated in every round does what a fixed number of rounds does. |
| LoopMeaning.BoundMeaning | src/atpserver/lua/lua_codex.lua:23-36 | A number is at least a maximum exactly when it is at least both arguments, and at most a minimum exactly when it is at most both; sums and products are those of the integers. |
| LoopMeaning.CondMeaning | src/atpserver/lua/parse_oc_code.lua:114-121 | Both languages decide a condition whose variables have values by the order of the integers. |
| LoopMeaning.SignsMean | src/atpserver/lua/parse_oc_code.lua:114-121 | The six signs in the texts mean these comparisons, and Lua shows `!=` as `~=`. |
| LoopMeaning.CallsMean | src/atpserver/lua/parse_oc_code.lua:145-198 | A text that begins with `max(` or `min(` is that of a maximum or a minimum, and no other is. |
| LoopMeaning.NilCompared | src/atpserver/lua/parse_oc_code.lua:114-121 | In Lua nil differs from every number, equals itself and cannot be ordered. |
| LoopSemantics.SameTuples | src/atpserver/lua/lua_codex.lua:23-36 | Every well-scoped program of nests ends, and its image ends, decides its conditions alike and emits the same tuples in the same order. |
| LoopMeaning.Rounds | src/atpserver/lua/parse_oc_code.lua:79-111 | The rounds of a loop are, in increasing order, exactly the numbers that satisfy every lower and upper bound and are a number of steps from the least that satisfies the lower ones. |
| LoopMeaning.EmitsWhatIsListed | src/atpserver/lua/lua_codex.lua:23-36 | In C and in Lua a well-scoped program emits exactly the tuples it lists by these meanings, in that order. |
| LoopScopes.LuaIsRight | src/atpserver/lua/lua_codex.lua:23-36 | A program whose C run ends and keeps to its scopes is translated rightly: the same decisions, the same tuples. If no loop reuses the variable of a loop around it, only then; and if moreover no condition compares a variable outside its loop for equality, the tuples alone are the same only then. |
| LoopInputs.SelfBoundedDiffers | src/atpserver/lua/parse_oc_code.lua:95-96 | A bound that uses its own variable leaves its scope: the C program emits a tuple, the Lua program stops. |
| LoopInputs.ReuseDiffers | src/atpserver/lua/parse_oc_code.lua:97-107 | A loop that reuses the variable of the loop around it: the C program leaves its scopes and emits one tuple, the Lua program two. |
| LoopInputs.LeftoverDecided | src/atpserver/lua/parse_oc_code.lua:97-107 | A variable compared after its loop, where it is nil in Lua: the two programs agree exactly when it is not compared with the value that C has left in it. |

## Left out

- RoundKeepsLegal: its part about the kind of the value being read is stated for the validating pass; `RoundKeepsFlags` covers the flags in both.
- SameTuples: integers are unbounded, where C has 32 bits and Lua a double; a bound at the largest `int` is not modelled.
- ParameterDetails: entries are unbounded integers; the size computation in 32 bits is not modelled.
- LoadFile: arrays and objects with more than 2147483647 entries, whose length the loader stores in an `int`.
- WritesSeparated: says of one run what must have happened in it; which states can lead to such a run is `TwoCanWrite`.
- LuaIsRight: where a loop reuses the variable of a loop around it, keeping the scopes is sufficient; such a program may also be translated rightly by chance.
- StaleRecord: a record that claims to be in a domain is covered on trees of the written shape; what it does on other accepted files, and when the loader misuses memory on these, is not claimed.
- RegistryComesBack: assumes that the uninitialised record has nothing pending; a registry that is not clean together with a pending record is not covered.
- StandardAccepted: lone surrogates, which the grammar of RFC 8259 allows, are refused by the parser.
- TreeLoaded: for trees of the written shape; of other trees, which the walk (`ProcessValue`) covers, only what `OtherTrees` and `IntegersFit` say is claimed.
- JSON comments (never enabled by `json_parse`), the values of doubles (only where they start and end), failing allocations, `max_memory`, sizes that overflow an address, error texts, lines and columns, and the release of the nodes after a rejected text.
- In the parser model the chain link `next_alloc` is the order of allocation, and the place where a string is written is found from the value being read; the digit count is cleared between the passes, where the C code keeps a count it never reads.
- The class of the destructor knows which nodes have a block, not the addresses of the blocks.
- A registry with more than 4294967295 domains, parameters or constraints.
- A null pointer for the name of a parameter in `atp_param_declare`, which the C code dereferences.
- What is written when the values of a parameter were never set: the C code reads uninitialised memory, and the model says only that the text is undefined.
- The calls into the runtime system that follow a declaration or a commit, and what it does with a default.
- The names of parameters and domains in fixed slots of 100 bytes, and the text that `ATP_build_oc_request` assembles; only the meaning of its range conjuncts is modelled.
- Sockets, the server's request loop, port probing, registration, and the Omega Calculator.
- Lua: the file that is written and executed, `constraint_parser.lua`, strict comparisons in loop tests, decreasing steps, integer division, conditions with other parentheses than those that `&&` and `||` need, and `if` without braces.
- Fortran wrappers, logging and build files.
