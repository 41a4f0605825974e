# Verified models of glog and of the libwebsockets plugins

This project models the stateful code of this repository that has the hardest properties, in the form
in which it is written, and proves what that code promises.

- **The demangler** (`glog/src/demangle.cc`). `DemangleGrammar.dfy` is a pure recogniser: one function
  for each nonterminal of section 5.1 of the Itanium C++ ABI, in the order and with the backtracking of
  the code, over the mangled text and a start position alone. `DemangleOutput.dfy` says what a parsing
  attempt writes, the abandoned alternatives included: the text, which does not depend on the buffer, and
  the operations on the buffer, which `DemangleBuffer.dfy` defines as they are in the code, overflow
  included. `Demangler.dfy` is the parser itself: about a hundred methods over one mutable `State`, which
  write into the caller's buffer, copy the state and put it back. Each is proved to follow the recogniser
  and the output function. So whether and where a parser succeeds does not depend on the buffer, its size,
  `append`, `nest_level` or `prev_name`; a failed parser leaves the whole state as it was (but for the
  four that the code itself exempts); nothing is written at or behind the end of the buffer; and the
  recursion ends, by the remaining characters and a rank of the nonterminals.
  `DemangleFit.dfy` proves what a caller finds in the buffer: with two cells more than the text and its
  NUL need, exactly the text, however much room the abandoned attempts wanted. `DemangleEnds.dfy` tells
  from the mangled name when the text is terminated.
  `Mangling.dfy` is the other direction, from the ABI and not from this code: what a compiler mangles (names,
  types, template arguments and symbols), its mangled text, and the form in which it should be shown.
  `DemangleReading.dfy`, `DemangleNames.dfy` and `DemangleSymbols.dfy` prove that the grammar reads every such
  text to its end and what is written for it, `DemangleReadable.dfy` that this is the readable form, and
  `DemangleRoundTrip.dfy` that demangling gives it back, in any buffer in which it fits.
  `DemangleDamage.dfy` and `DemangleEdges.dfy` hold the symbols on which the code does not keep what its
  comments promise.
- **The mirror protocol** (`protocol_lws_mirror.c`, `Mirror.dfy`, over the multi-tail ring of
  `LwsRing.dfy`, whose indices wrap). Sessions join, leave, receive and write in any interleaving; the
  accepted messages are a log, each session has sent exactly the log from its join to its tail, and the log
  is all that arrived if rx was on and memory was left whenever something did. Once no more arrives, everyone
  gets everything, however often the pipe is choked.
- **The status protocol** (`protocol_lws_status.c`, `Status.dfy`). Listings in fragments of a list that
  changes on the way.
- **VLOG** (`vlog_is_on.cc`). `Glob.dfy` is the matcher against a declarative definition of globbing;
  `Vlog.dfy` is the cache of the sites with the list of modules behind it.
- **The symbolizer's text code** (`symbolize.cc`). `LineReader.dfy` is the sliding-window reader over a
  file whose reads may be short; `HexText.dfy` converts numbers to text and back.
- **The Wi-Fi scan list** (`protocol_esp32_lws_scan.c`, `WifiScan.dfy`). Merge, trim and sort, in runs.
- **Log files** (`logging.cc`). `LogFile.dfy` has the 32-bit counters of a log file object with all that
  changes them; `LogTruncate.dfy` cuts a file down to its end in place.

Lists that the code links through pointers are fields of type `seq` that the methods reassign. I/O,
memory, clocks and flags are parameters of the methods: what `malloc`, `pread`, `pwrite`, `open` and
`lws_write` return is arbitrary within their contracts.

Where the code does not do what its comments say, the model follows the code:

- a `<source-name>` with a negative length can move the cursor back to where it began, and then the prefix
  loop goes around without end (`DemangleEdges.StrayRound`). A literal of type `__int128` has such a length, as its code is the letter of
  the minus sign (`DemangleEdges.WideLiteral`). The parsers are specified for all texts in
  which no length leads back; `DemangleGrammar.Grammar.MangledName` states that none does without a negative
  number. Leading back is not the same as not ending: see `DemangleEdges.StrayMayEnd`;
- the output of an accepted name is not always terminated. An empty name writes nothing at all
  (`DemangleEdges.EmptyNameExample`); and a text that is not empty may be followed by what an abandoned
  attempt left there, however large the buffer is (`DemangleDamage.UnterminatedExample`).
  `DemangleEnds.SymbolEnds` has a condition on the mangled name under which the NUL is there: the symbol is
  that of a function, or has a version suffix, or does not end in an empty name or type. For plain names
  the condition is exact (`DemangleEnds.PlainNameEndsExactlyWhen`); for casts it is not
  (`DemangleDamage.EmptyCastEnds`);
- putting a state back does not put the buffer back: an attempt that ran out of room and is then
  abandoned may leave the text damaged with the overflow flag cleared, so that a damaged name is reported
  as a success (`DemangleDamage.DamagedExample`). `DemangleFit.Fitting` limits the damage to the last three
  cells of the buffer, so that it can only happen in a buffer with less than two spare cells;
- a loop over `<abi-tag>` may end one character behind a stray `B`;
- the matcher misses globs when the text has a `*`, or the pattern ends in two (`Glob.StarInText`,
  `Glob.CompleteExactlyWhen`);
- a new base name does not reset the counters, so that the pages dropped next may be the newest of the
  new file (`LogFile.RenamedTail`; `LogFile.LogFileObject.DropMemory` has the exact condition);
- numbers of 2^63 and more count as negative in `TruncateLogFile` (`LogTruncate.PromiseKeptWhen`).

## Model

| member | source | states |
|---|---|---|
| `Demangling.Demangle` | glog/src/demangle.cc:1327-1361 | For every mangled text and every output size, 0 included: success implies that the text is in the grammar; with two cells more than the text and its NUL need, it succeeds exactly for the grammar and the buffer starts with the text, and with the NUL when the name says so; in every buffer all but the last three cells are right on success; in the two smaller sizes that hold the text and its NUL, both are there while the abandoned attempts fit; and the final buffer is always that of the recorded operations |
| `DemangleFit.Fitting` | glog/src/demangle.cc:271-286 | Whatever attempts were made and abandoned: a buffer with two spare cells has not overflowed and holds the text and its NUL; in any buffer the cells before the last three hold the text |
| `DemangleFit.EmitFollows` | glog/src/demangle.cc:327-345 | Appending keeps the relation between text and buffer: exact with room, and otherwise confined to the last three cells |
| `DemangleFit.RepeatFollows` | glog/src/demangle.cc:888-911 | Repeating the previous name out of the buffer keeps that relation, although the characters may have been damaged |
| `DemangleFit.CancelFollows` | glog/src/demangle.cc:394-401 | Cancelling a separator keeps that relation: the NUL that it writes damages nothing before the last three cells |
| `DemangleFit.UndoFollows` | glog/src/demangle.cc:463-469 | Going back to a saved state, while the buffer stays as the abandoned attempt left it, keeps that relation |
| `DemangleEnds.SymbolEnds` | glog/src/demangle.cc:271-286 | A condition on the mangled name alone under which the text of an accepted symbol is terminated: it is that of a function, has a version, or does not end in an empty name or type |
| `DemangleEnds.PlainNameEndsExactlyWhen` | glog/src/demangle.cc:504-607 | For nested names and for unqualified names without cast, vendor operator or substitution: the text is terminated if and only if that condition holds; and if not, the buffer is never touched |
| `DemangleEnds.EncodingEnds` | glog/src/demangle.cc:488-502 | The output of an encoding is terminated in every output state if it is that of a function or its last part is not empty |
| `DemangleEnds.NameEnds` | glog/src/demangle.cc:504-525 | The output of a name is terminated in every output state if its last part is not empty |
| `DemangleEnds.TypeEnds` | glog/src/demangle.cc:913-984 | The output of a type is terminated in every output state if its last part is not empty |
| `DemangleEnds.ExpressionEnds` | glog/src/demangle.cc:1145-1199 | The output of an expression is terminated in every output state if its last part is not empty |
| `DemangleDamage.DamagedText` | glog/src/demangle.cc:463-469 | A concrete symbol and size: the text and its NUL fit exactly, nothing overflows in the end, and yet the buffer holds something else, because an abandoned attempt ran out of room |
| `DemangleDamage.DamagedExample` | glog/src/demangle.h:78-80 | On that symbol the demangler returns true with a C string that is not the demangled name |
| `DemangleDamage.Unterminated` | glog/src/demangle.cc:463-469 | A concrete symbol with a text that is not empty and that, in every buffer with three spare cells or more, is followed by a character of an abandoned attempt |
| `DemangleDamage.UnterminatedExample` | glog/src/demangle.h:78-80 | On that symbol the demangler returns true in every such buffer, and the C string there goes on behind the demangled name |
| `DemangleDamage.EmptyCastEnds` | glog/src/demangle.cc:726-772 | A concrete cast that ends in nothing and is terminated all the same: the condition of SymbolEnds is not necessary for casts |
| `DemangleRoundTrip.RoundTrip` | glog/src/demangle.cc:453-1323 | For every symbol that a compiler mangles (functions with any parameters, variables, type data, guard variables, thunks and so on, over nested, local, unscoped and operator names, with template arguments, substitutions and types of every kind) and every suffix: the mangled name is recognised and its text is the readable form; for a function no attempt needs more room than the result; clone suffixes add nothing and a version follows as it is |
| `DemangleSymbols.EncodingRead` | glog/src/demangle.cc:488-502 | The encoding of every symbol is read exactly to its end, with what is written, for every output state |
| `DemangleNames.TysRead` | glog/src/demangle.cc:1029-1040 | A list of types is read to its end, however many there are, and with a parameter list the function is complete |
| `DemangleNames.TyRead` | glog/src/demangle.cc:913-984 | The text of every type, followed by anything that cannot continue it, is read exactly to its end, with what is written |
| `DemangleNames.QualifiersRead` | glog/src/demangle.cc:986-995 | Qualifiers in front of a type may be read up to three at a time without a difference |
| `DemangleNames.ArgsRead` | glog/src/demangle.cc:1102-1143 | A list of template arguments is read to its end: types, literals, addresses of functions, packs and expressions |
| `DemangleNames.FirstRead` | glog/src/demangle.cc:1145-1199 | Expressions are read to their end although an operator takes up to three of them, whatever it was mangled with: each expression read leaves at least one less to come |
| `DemangleNames.NameRead` | glog/src/demangle.cc:504-607 | The text of every name, followed by anything that cannot continue it, is read exactly to its end, with what is written |
| `DemangleNames.FunctionRead` | glog/src/demangle.cc:488-502 | The name and the parameters of every function are read exactly to their end, also inside local names |
| `DemangleReading.TagsRead` | glog/src/demangle.cc:709-727 | All tags of a name are read, up to a character that is no `B` |
| `DemangleReading.ClonesRead` | glog/src/demangle.cc:300-325 | Every list of clone suffixes up to the end of the text is accepted |
| `DemangleReadable.TyWritten` | glog/src/demangle.cc:913-984 | What is written for a type is its readable form, whatever was tried before, and it is terminated |
| `DemangleReadable.NameWritten` | glog/src/demangle.cc:504-607 | What is written for a name is its readable form, and no attempt on the way was longer than that by more than a separator |
| `DemangleReadable.FunctionWritten` | glog/src/demangle.cc:488-502 | What is written for a function is its name and `()`, which needs just the room of that text |
| `DemangleReadable.KindWritten` | glog/src/demangle.cc:888-911 | Constructors and destructors repeat the last identifier, which is still in the output; operators have the names of the table; conversions show their type |
| `DemangleRoundTrip.DemangleMangled` | glog/src/demangle.cc:1327-1361 | Demangling a mangled function succeeds exactly when the readable form and its NUL fit, and any other symbol at least with two spare cells; then the buffer holds exactly them |
| `DemangleEdges.StrayExample` | glog/src/demangle.cc:609-618 | A concrete text on which a negative length leads exactly back to the start of the name: the boundary of what the parsers promise |
| `DemangleEdges.WideLiteral` | glog/src/demangle.cc:620-633 | A template argument of type __int128 is taken for something local with a negative length, so that its symbol leads back |
| `DemangleEdges.StrayRound` | glog/src/demangle.cc:577-594 | One round of the prefix loop on that text, with the calls of the code: the name is read, the cursor is where it was, the append flag too, and only a separator was added |
| `DemangleEdges.StrayRounds` | glog/src/demangle.cc:577-594 | After any number of rounds the cursor has not moved |
| `DemangleEdges.StrayMayEnd` | glog/src/demangle.cc:609-618 | A concrete text on which a length leads back and the parse ends all the same |
| `DemangleEdges.EmptyNames` | glog/src/demangle.cc:504-607 | Three accepted symbols of an empty name, which fail the condition for termination |
| `DemangleEdges.EmptyNameExample` | glog/src/demangle.cc:271-286 | On these symbols the demangler returns true and leaves the buffer as it was, without a NUL, in every buffer |
| `DemangleGrammar.Grammar.Number` | glog/src/demangle.cc:635-660 | An accepted <number> advances within the text and is never stray |
| `DemangleGrammar.Grammar.SourceName` | glog/src/demangle.cc:609-618 | An accepted <source-name> ends behind its start and not behind the terminator, and in a text without negative numbers none is stray |
| `DemangleGrammar.Grammar.AbiTags` | glog/src/demangle.cc:709-727 | An accepted <abi-tags> ends behind its start and not behind the terminator, and in a text without negative numbers none is stray |
| `DemangleGrammar.Grammar.MoreAbiTags` | glog/src/demangle.cc:250-258 | The loop over further tags always ends within the text, not before it began, without failing |
| `DemangleGrammar.Grammar.LocalSourceName` | glog/src/demangle.cc:620-633 | An accepted <local-source-name> ends behind its start and not behind the terminator, and in a text without negative numbers none is stray |
| `DemangleGrammar.Grammar.CallOffset` | glog/src/demangle.cc:853-870 | An accepted <call-offset> advances within the text and is never stray |
| `DemangleGrammar.Grammar.VOffset` | glog/src/demangle.cc:877-886 | An accepted <v-offset> advances within the text and is never stray |
| `DemangleGrammar.Grammar.CtorDtorName` | glog/src/demangle.cc:888-911 | An accepted <ctor-dtor-name> advances within the text and is never stray |
| `DemangleGrammar.Grammar.CvQualifiers` | glog/src/demangle.cc:986-995 | Accepted <CV-qualifiers> advance within the text, so that <type> cannot loop on them |
| `DemangleGrammar.Grammar.BuiltinType` | glog/src/demangle.cc:997-1015 | An accepted <builtin-type> ends behind its start and not behind the terminator, and in a text without negative numbers none is stray |
| `DemangleGrammar.Grammar.TemplateParam` | glog/src/demangle.cc:1076-1092 | An accepted <template-param> advances within the text and is never stray |
| `DemangleGrammar.Grammar.Substitution` | glog/src/demangle.cc:1267-1301 | An accepted <substitution> advances within the text and is never stray |
| `DemangleGrammar.Grammar.TemplateTemplateParam` | glog/src/demangle.cc:1095-1100 | An accepted <template-template-param> advances within the text and is never stray |
| `DemangleGrammar.Grammar.Discriminator` | glog/src/demangle.cc:1257-1265 | An accepted <discriminator> advances within the text and is never stray |
| `DemangleGrammar.Grammar.MangledName` | glog/src/demangle.cc:483-486 | An accepted <mangled-name> ends behind its start and not behind the terminator, and in a text without negative numbers none is stray; the mutual recursion of all nonterminals below ends by remaining characters and rank |
| `DemangleGrammar.Grammar.Encoding` | glog/src/demangle.cc:488-502 | An accepted <encoding> ends behind its start and not behind the terminator, and in a text without negative numbers none is stray |
| `DemangleGrammar.Grammar.Name` | glog/src/demangle.cc:504-525 | An accepted <name> ends behind its start and not behind the terminator, and in a text without negative numbers none is stray |
| `DemangleGrammar.Grammar.UnscopedName` | glog/src/demangle.cc:527-542 | An accepted <unscoped-name> ends behind its start and not behind the terminator, and in a text without negative numbers none is stray |
| `DemangleGrammar.Grammar.UnscopedTemplateName` | glog/src/demangle.cc:544-548 | An accepted <unscoped-template-name> ends behind its start and not behind the terminator, and in a text without negative numbers none is stray |
| `DemangleGrammar.Grammar.NestedName` | glog/src/demangle.cc:550-564 | An accepted <nested-name> ends behind its start and not behind the terminator, and in a text without negative numbers none is stray |
| `DemangleGrammar.Grammar.Prefix` | glog/src/demangle.cc:566-596 | The <prefix> loop always succeeds, ends within the text and not before its start, and in a text without negative numbers is not stray |
| `DemangleGrammar.Grammar.UnqualifiedName` | glog/src/demangle.cc:598-607 | An accepted <unqualified-name> ends behind its start and not behind the terminator, and in a text without negative numbers none is stray |
| `DemangleGrammar.Grammar.OperatorName` | glog/src/demangle.cc:726-772 | An accepted <operator-name> ends behind its start and not behind the terminator, and in a text without negative numbers none is stray |
| `DemangleGrammar.Grammar.SpecialName` | glog/src/demangle.cc:774-851 | An accepted <special-name> ends behind its start and not behind the terminator, and in a text without negative numbers none is stray |
| `DemangleGrammar.Grammar.Type` | glog/src/demangle.cc:913-984 | An accepted <type> ends behind its start and not behind the terminator, and in a text without negative numbers none is stray |
| `DemangleGrammar.Grammar.FunctionType` | glog/src/demangle.cc:1017-1027 | An accepted <function-type> ends behind its start and not behind the terminator, and in a text without negative numbers none is stray |
| `DemangleGrammar.Grammar.BareFunctionType` | glog/src/demangle.cc:1029-1040 | An accepted <bare-function-type> ends behind its start and not behind the terminator, and in a text without negative numbers none is stray |
| `DemangleGrammar.Grammar.ArrayType` | glog/src/demangle.cc:1047-1063 | An accepted <array-type> ends behind its start and not behind the terminator, and in a text without negative numbers none is stray |
| `DemangleGrammar.Grammar.PointerToMemberType` | glog/src/demangle.cc:1065-1074 | An accepted <pointer-to-member-type> ends behind its start and not behind the terminator, and in a text without negative numbers none is stray |
| `DemangleGrammar.Grammar.TemplateArgs` | glog/src/demangle.cc:1102-1115 | An accepted <template-args> ends behind its start and not behind the terminator, and in a text without negative numbers none is stray |
| `DemangleGrammar.Grammar.TemplateArg` | glog/src/demangle.cc:1117-1143 | An accepted <template-arg> ends behind its start and not behind the terminator, and in a text without negative numbers none is stray |
| `DemangleGrammar.Grammar.Expression` | glog/src/demangle.cc:1145-1199 | An accepted <expression> ends behind its start and not behind the terminator, and in a text without negative numbers none is stray |
| `DemangleGrammar.Grammar.ExprPrimary` | glog/src/demangle.cc:1201-1235 | An accepted <expr-primary> ends behind its start and not behind the terminator, and in a text without negative numbers none is stray |
| `DemangleGrammar.Grammar.LocalName` | glog/src/demangle.cc:1237-1255 | An accepted <local-name> ends behind its start and not behind the terminator, and in a text without negative numbers none is stray |
| `DemangleOutput.Emit` | glog/src/demangle.cc:329-353 | Appending keeps the flags and everything that was written before |
| `DemangleOutput.Undo` | glog/src/demangle.cc:463-469 | Restoring gives the saved state back; only the record of abandoned room, of a NUL and of what happened to the characters may differ |
| `DemangleOutput.Cancelled` | glog/src/demangle.cc:395-401 | Cancelling a separator behind which nothing came gives exactly the text before the separator |
| `DemangleOutput.WriteSourceName` | glog/src/demangle.cc:609-618 | Recognition is that of the pure grammar whatever the output state; append and nest level come out as they went in, earlier text is never lost, a rejected attempt leaves the text, and with append off nothing changes |
| `DemangleOutput.WriteCtorDtorName` | glog/src/demangle.cc:888-911 | Recognition is that of the pure grammar whatever the output state; append and nest level come out as they went in, earlier text is never lost, a rejected attempt leaves the text, and with append off nothing changes |
| `DemangleOutput.WriteSubstitution` | glog/src/demangle.cc:1267-1301 | Recognition is that of the pure grammar whatever the output state; append and nest level come out as they went in, earlier text is never lost, a rejected attempt leaves the text, and with append off nothing changes |
| `DemangleOutput.WriteTemplateArgs` | glog/src/demangle.cc:1102-1115 | Recognition is that of the pure grammar whatever the output state; append and nest level come out as they went in, earlier text is never lost, a rejected attempt leaves the text, and with append off nothing changes: all that can appear is `<>` |
| `DemangleOutput.WriteBareFunctionType` | glog/src/demangle.cc:1029-1040 | Recognition is that of the pure grammar whatever the output state; append and nest level come out as they went in, earlier text is never lost, a rejected attempt leaves the text, and with append off nothing changes: all that can appear is `()` |
| `DemangleOutput.WriteMangledName` | glog/src/demangle.cc:483-486 | Recognition is that of the pure grammar whatever the output state; append and nest level come out as they went in, earlier text is never lost, a rejected attempt leaves the text, and with append off nothing changes |
| `DemangleOutput.WriteEncoding` | glog/src/demangle.cc:488-502 | Recognition is that of the pure grammar whatever the output state; append and nest level come out as they went in, earlier text is never lost, a rejected attempt leaves the text, and with append off nothing changes |
| `DemangleOutput.WriteName` | glog/src/demangle.cc:504-525 | Recognition is that of the pure grammar whatever the output state; append and nest level come out as they went in, earlier text is never lost, a rejected attempt leaves the text, and with append off nothing changes |
| `DemangleOutput.WriteUnscopedName` | glog/src/demangle.cc:527-542 | Recognition is that of the pure grammar whatever the output state; append and nest level come out as they went in, earlier text is never lost, a rejected attempt leaves the text, and with append off nothing changes |
| `DemangleOutput.WriteNestedName` | glog/src/demangle.cc:550-564 | Recognition is that of the pure grammar whatever the output state; append and nest level come out as they went in, earlier text is never lost, a rejected attempt leaves the text, and with append off nothing changes |
| `DemangleOutput.WritePrefix` | glog/src/demangle.cc:566-596 | Recognition is that of the pure grammar whatever the output state; append and nest level come out as they went in, earlier text is never lost, a rejected attempt leaves the text, and with append off nothing changes, except that the nest level may have grown |
| `DemangleOutput.WriteUnqualifiedName` | glog/src/demangle.cc:598-607 | Recognition is that of the pure grammar whatever the output state; append and nest level come out as they went in, earlier text is never lost, a rejected attempt leaves the text, and with append off nothing changes |
| `DemangleOutput.WriteOperatorName` | glog/src/demangle.cc:726-772 | Recognition is that of the pure grammar whatever the output state; append and nest level come out as they went in, earlier text is never lost, a rejected attempt leaves the text, and with append off nothing changes |
| `DemangleOutput.WriteSpecialName` | glog/src/demangle.cc:774-851 | Recognition is that of the pure grammar whatever the output state; append and nest level come out as they went in, earlier text is never lost, a rejected attempt leaves the text, and with append off nothing changes |
| `DemangleOutput.WriteType` | glog/src/demangle.cc:913-984 | Recognition is that of the pure grammar whatever the output state; append and nest level come out as they went in, earlier text is never lost, a rejected attempt leaves the text, and with append off nothing changes |
| `DemangleOutput.WriteExpression` | glog/src/demangle.cc:1145-1199 | Recognition is that of the pure grammar whatever the output state; append and nest level come out as they went in, earlier text is never lost, a rejected attempt leaves the text, and with append off nothing changes |
| `DemangleOutput.WriteExprPrimary` | glog/src/demangle.cc:1201-1235 | Recognition is that of the pure grammar whatever the output state; append and nest level come out as they went in, earlier text is never lost, a rejected attempt leaves the text, and with append off nothing changes |
| `DemangleOutput.WriteLocalName` | glog/src/demangle.cc:1237-1255 | Recognition is that of the pure grammar whatever the output state; append and nest level come out as they went in, earlier text is never lost, a rejected attempt leaves the text, and with append off nothing changes |
| `DemangleOutput.SymbolText` | glog/src/demangle.cc:1303-1323 | The text of a recognised symbol is that of its encoding, without a clone suffix, and with a version suffix as it stands |
| `Demangling.Demangler.Append` | glog/src/demangle.cc:271-286 | Writes the string behind the text, or as much as fits, sets the overflow flag exactly when room for the text and its NUL is missing, never writes at or behind the end of the buffer, and terminates the text unless it overflowed |
| `Demangling.Demangler.MaybeAppendWithLength` | glog/src/demangle.cc:327-345 | With append on, adds the space that keeps two `<` apart and the string, and notes an identifier as the previous name; with append off or an empty string, changes nothing |
| `Demangling.Demangler.MaybeAppendName` | glog/src/demangle.cc:888-911 | Appends the previous name out of the buffer itself, as it now stands there |
| `Demangling.Demangler.MaybeAppendSeparator` | glog/src/demangle.cc:387-392 | Adds `::` exactly from nest level 1 on |
| `Demangling.Demangler.MaybeCancelLastSeparator` | glog/src/demangle.cc:394-401 | Takes back two characters, with append on, exactly when a separator would have been added and there are two; changes nothing otherwise |
| `Demangling.Demangler.Restore` | glog/src/demangle.cc:463-469 | The saved state is back; the characters of the buffer are those that the abandoned attempt left |
| `Demangling.Demangler.ParseOneCharToken` | glog/src/demangle.cc:209-216 | Moves over the character exactly when it is next; nothing else changes |
| `Demangling.Demangler.ParseTwoCharToken` | glog/src/demangle.cc:219-228 | Moves over the two characters exactly when they are next; nothing else changes |
| `Demangling.Demangler.ParseCharClass` | glog/src/demangle.cc:231-241 | Moves over one character exactly when it is in the class; nothing else changes |
| `Demangling.Demangler.ParseNumber` | glog/src/demangle.cc:635-660 | Succeeds exactly for a <number>, gives its value, and on failure may leave the cursor behind the sign |
| `Demangling.Demangler.ParseFloatNumber` | glog/src/demangle.cc:662-676 | Moves over the longest run of such characters, and fails without moving on an empty run |
| `Demangling.Demangler.ParseSeqId` | glog/src/demangle.cc:678-692 | Moves over the longest run of such characters, and fails without moving on an empty run |
| `Demangling.Demangler.ParseIdentifier` | glog/src/demangle.cc:694-707 | Succeeds exactly when the length is not -1 and that many characters remain, and appends the identifier or the text for an anonymous namespace |
| `Demangling.Demangler.ParseSourceName` | glog/src/demangle.cc:609-618 | Succeeds exactly where the grammar accepts and stops exactly there, writes exactly what the output function prescribes, and on failure leaves the whole state as it was; with append off it writes nothing |
| `Demangling.Demangler.ParseAbiTag` | glog/src/demangle.cc:721-724 | Succeeds exactly where the grammar accepts; on failure the cursor is behind the B if there was one, as the code leaves it |
| `Demangling.Demangler.ParseAbiTags` | glog/src/demangle.cc:709-719 | Succeeds exactly where the grammar accepts and stops exactly there, writes nothing, and on failure leaves the whole state as it was |
| `Demangling.Demangler.ParseLocalSourceName` | glog/src/demangle.cc:620-633 | Succeeds exactly where the grammar accepts and stops exactly there, writes exactly what the output function prescribes, and on failure leaves the whole state as it was; with append off it writes nothing |
| `Demangling.Demangler.ParseNVOffset` | glog/src/demangle.cc:872-875 | Succeeds exactly for a <number>, and on failure may leave the cursor behind the sign |
| `Demangling.Demangler.ParseVOffset` | glog/src/demangle.cc:877-886 | Succeeds exactly where the grammar accepts and stops exactly there, writes nothing, and on failure leaves the whole state as it was |
| `Demangling.Demangler.ParseCallOffset` | glog/src/demangle.cc:853-870 | Succeeds exactly where the grammar accepts and stops exactly there, writes nothing, and on failure leaves the whole state as it was |
| `Demangling.Demangler.ParseCtorDtorName` | glog/src/demangle.cc:888-911 | Succeeds exactly where the grammar accepts and stops exactly there, writes exactly what the output function prescribes, and on failure leaves the whole state as it was; with append off it writes nothing |
| `Demangling.Demangler.ParseCVQualifiers` | glog/src/demangle.cc:986-995 | Succeeds exactly where the grammar accepts and stops exactly there, writes nothing, and on failure leaves the whole state as it was |
| `Demangling.Demangler.ParseBuiltinType` | glog/src/demangle.cc:997-1015 | Succeeds exactly where the grammar accepts and stops exactly there, writes exactly what the output function prescribes, and on failure leaves the whole state as it was; with append off it writes nothing |
| `Demangling.Demangler.ParseTemplateParam` | glog/src/demangle.cc:1076-1092 | Succeeds exactly where the grammar accepts and stops exactly there, writes exactly what the output function prescribes, and on failure leaves the whole state as it was; with append off it writes nothing |
| `Demangling.Demangler.ParseTemplateTemplateParam` | glog/src/demangle.cc:1095-1100 | Succeeds exactly where the grammar accepts and stops exactly there, writes exactly what the output function prescribes, and on failure leaves the whole state as it was; with append off it writes nothing |
| `Demangling.Demangler.ParseSubstitution` | glog/src/demangle.cc:1267-1301 | Succeeds exactly where the grammar accepts and stops exactly there, writes exactly what the output function prescribes, and on failure leaves the whole state as it was; with append off it writes nothing |
| `Demangling.Demangler.ParseDiscriminator` | glog/src/demangle.cc:1257-1265 | Succeeds exactly where the grammar accepts and stops exactly there, writes nothing, and on failure leaves the whole state as it was |
| `Demangling.Demangler.ParseMangledName` | glog/src/demangle.cc:483-486 | As the other parsers, except that a failed encoding leaves the cursor behind the "_Z" |
| `Demangling.Demangler.ParseEncoding` | glog/src/demangle.cc:488-502 | Succeeds exactly where the grammar accepts and stops exactly there, writes exactly what the output function prescribes, and on failure leaves the whole state as it was; with append off it writes nothing |
| `Demangling.Demangler.ParseName` | glog/src/demangle.cc:504-525 | Succeeds exactly where the grammar accepts and stops exactly there, writes exactly what the output function prescribes, and on failure leaves the whole state as it was; with append off it writes nothing |
| `Demangling.Demangler.ParseUnscopedName` | glog/src/demangle.cc:527-542 | Succeeds exactly where the grammar accepts and stops exactly there, writes exactly what the output function prescribes, and on failure leaves the whole state as it was; with append off it writes nothing |
| `Demangling.Demangler.ParseUnscopedTemplateName` | glog/src/demangle.cc:544-548 | Succeeds exactly where the grammar accepts and stops exactly there, writes exactly what the output function prescribes, and on failure leaves the whole state as it was; with append off it writes nothing |
| `Demangling.Demangler.ParseNestedName` | glog/src/demangle.cc:550-564 | Succeeds exactly where the grammar accepts and stops exactly there, writes exactly what the output function prescribes, and on failure leaves the whole state as it was; with append off it writes nothing |
| `Demangling.Demangler.ParsePrefix` | glog/src/demangle.cc:566-596 | Always succeeds, stops exactly where the grammar does and writes what the output function prescribes; it ends, keeps append, and leaves the nest level it has reached |
| `Demangling.Demangler.ParseUnqualifiedName` | glog/src/demangle.cc:598-607 | Succeeds exactly where the grammar accepts and stops exactly there, writes exactly what the output function prescribes, and on failure leaves the whole state as it was; with append off it writes nothing |
| `Demangling.Demangler.ParseOperatorName` | glog/src/demangle.cc:726-772 | Succeeds exactly where the grammar accepts and stops exactly there, writes exactly what the output function prescribes, and on failure leaves the whole state as it was; with append off it writes nothing |
| `Demangling.Demangler.ParseSpecialName` | glog/src/demangle.cc:774-851 | Succeeds exactly where the grammar accepts and stops exactly there, writes exactly what the output function prescribes, and on failure leaves the whole state as it was; with append off it writes nothing |
| `Demangling.Demangler.ParseType` | glog/src/demangle.cc:913-984 | Succeeds exactly where the grammar accepts and stops exactly there, writes exactly what the output function prescribes, and on failure leaves the whole state as it was; with append off it writes nothing |
| `Demangling.Demangler.ParseFunctionType` | glog/src/demangle.cc:1017-1027 | Succeeds exactly where the grammar accepts and stops exactly there, writes exactly what the output function prescribes, and on failure leaves the whole state as it was; with append off it writes nothing |
| `Demangling.Demangler.ParseBareFunctionType` | glog/src/demangle.cc:1029-1040 | Succeeds exactly where the grammar accepts and stops exactly there, writes exactly what the output function prescribes, and on failure leaves the whole state as it was; with append off it writes nothing: a parameter list adds exactly `()` |
| `Demangling.Demangler.ParseClassEnumType` | glog/src/demangle.cc:1042-1045 | Succeeds exactly where the grammar accepts and stops exactly there, writes exactly what the output function prescribes, and on failure leaves the whole state as it was; with append off it writes nothing |
| `Demangling.Demangler.ParseArrayType` | glog/src/demangle.cc:1047-1063 | Succeeds exactly where the grammar accepts and stops exactly there, writes exactly what the output function prescribes, and on failure leaves the whole state as it was; with append off it writes nothing |
| `Demangling.Demangler.ParsePointerToMemberType` | glog/src/demangle.cc:1065-1074 | Succeeds exactly where the grammar accepts and stops exactly there, writes exactly what the output function prescribes, and on failure leaves the whole state as it was; with append off it writes nothing |
| `Demangling.Demangler.ParseTemplateArgs` | glog/src/demangle.cc:1102-1115 | Succeeds exactly where the grammar accepts and stops exactly there, writes exactly what the output function prescribes, and on failure leaves the whole state as it was; with append off it writes nothing: template arguments add exactly `<>` |
| `Demangling.Demangler.ParseTemplateArg` | glog/src/demangle.cc:1117-1143 | Succeeds exactly where the grammar accepts and stops exactly there, writes nothing, and on failure leaves the whole state as it was |
| `Demangling.Demangler.ParseExpression` | glog/src/demangle.cc:1145-1199 | Succeeds exactly where the grammar accepts and stops exactly there, writes exactly what the output function prescribes, and on failure leaves the whole state as it was; with append off it writes nothing |
| `Demangling.Demangler.ParseExprPrimary` | glog/src/demangle.cc:1201-1235 | Succeeds exactly where the grammar accepts and stops exactly there, writes exactly what the output function prescribes, and on failure leaves the whole state as it was; with append off it writes nothing |
| `Demangling.Demangler.ParseLocalName` | glog/src/demangle.cc:1237-1255 | Succeeds exactly where the grammar accepts and stops exactly there, writes exactly what the output function prescribes, and on failure leaves the whole state as it was; with append off it writes nothing |
| `Demangling.Demangler.IsFunctionCloneSuffix` | glog/src/demangle.cc:301-325 | Decides whether the rest of the text is (.alpha+.digit+)* |
| `Demangling.Demangler.ParseTopLevelMangledName` | glog/src/demangle.cc:1303-1323 | Succeeds exactly for the recognised symbols, and then the output is that of the whole symbol |
| `LwsRing.Ring.CountFree` | libwebsockets/include/libwebsockets/lws-ring.h:112-121 | The number of free slots, computed from indices that wrap around, is the number that is not between the oldest tail and the head |
| `LwsRing.Ring.CountWaiting` | libwebsockets/include/libwebsockets/lws-ring.h:123-133 | The number of elements between any attached tail and the head of the log |
| `LwsRing.Ring.Insert` | libwebsockets/include/libwebsockets/lws-ring.h:135-146 | A message enters the log and the buffer exactly when a slot is free, and no held message is overwritten |
| `LwsRing.Ring.GetElement` | libwebsockets/include/libwebsockets/lws-ring.h:173-190 | Finds the next message of the log for any attached tail, with its payload still held |
| `LwsRing.Ring.UpdateOldestTail` | libwebsockets/include/libwebsockets/lws-ring.h:192-203 | Destroys exactly the messages between the oldest tail and the new one, each once and in order, and holds all the others |
| `LwsRing.Ring.Destroy` | libwebsockets/include/libwebsockets/lws-ring.h:102-110 | Every message of the log has been destroyed exactly once |
| `Mirror.Instance.constructor` | libwebsockets/plugins/protocol_lws_mirror.c:245-261 | A new instance is valid: empty, with rx enabled |
| `Mirror.Instance.FindWorst` | libwebsockets/plugins/protocol_lws_mirror.c:113-127 | Finds a session at the minimum of all tails, however the indices wrap |
| `Mirror.Instance.UpdateWorstTail` | libwebsockets/plugins/protocol_lws_mirror.c:88-142 | Afterwards the oldest tail is the minimum of the tails, it never goes back, and rx is re-enabled exactly when it moved and RXFLOW_MAX slots are free |
| `Mirror.Instance.Established` | libwebsockets/plugins/protocol_lws_mirror.c:268-276 | A new session starts at the oldest tail with nothing sent, and everything stays valid |
| `Mirror.Instance.Closed` | libwebsockets/plugins/protocol_lws_mirror.c:285-329 | The others stay valid with the oldest tail at their minimum; when the last session leaves, every message of the log has been destroyed exactly once |
| `Mirror.Instance.Receive` | libwebsockets/plugins/protocol_lws_mirror.c:411-447 | The log gets the message exactly when it is accepted, and the arrival is recorded; a message is accepted exactly when a slot is free and memory is there; while rx is enabled a slot is always free, so that none is dropped; rx goes off exactly below RXFLOW_MIN |
| `Mirror.Instance.SendWaiting` | libwebsockets/plugins/protocol_lws_mirror.c:354-379 | A session sends the next messages of the log: all that wait or as many as the pipe takes, but at least one, unless a write fails before that; and stays in order |
| `Mirror.Instance.Writeable` | libwebsockets/plugins/protocol_lws_mirror.c:348-404 | Without a failed write at least one message goes out if any waits, and afterwards none waits or the pipe is full; exactly those are sent; the oldest tail is the minimum again, and rx is re-enabled exactly when that made enough room |
| `Mirror.Drain` | libwebsockets/plugins/protocol_lws_mirror.c:348-404 | When every session has had a callback with room for all that waited for it, in any order, each has sent the whole log since it joined, and nothing is held any more |
| `Mirror.DrainChoked` | libwebsockets/plugins/protocol_lws_mirror.c:348-404 | The same with pipes that are choked at any time: as many rounds of callbacks as messages wait are enough |
| `Mirror.Instance.SomebodyIsBehind` | libwebsockets/plugins/protocol_lws_mirror.c:129-142 | While rx is disabled some attached session holds unread messages |
| `Mirror.Instance.Step` | libwebsockets/plugins/protocol_lws_mirror.c:285-447 | Every callback keeps: each session has sent exactly the log from its join to its tail, tails are not behind the oldest tail, flow control, and what was sent before; the log changes only by an arrival, and then by its message exactly when memory and a slot were there |
| `Mirror.NothingLost` | libwebsockets/plugins/protocol_lws_mirror.c:411-447 | If rx was on and memory was left at every arrival, the log is the messages of all arrivals in their order |
| `Mirror.Run` | libwebsockets/plugins/protocol_lws_mirror.c:268-447 | Over any run from the first session to the last: all of this holds; the log is the accepted ones among the arrivals of the run, in order, and all of them if rx was on and memory was left at each; at the end every message has been destroyed exactly once |
| `Status.Vhd.TriggerResend` | libwebsockets/plugins/protocol_lws_status.c:63-77 | Every quiescent session starts a walk and every other one is marked as changed; nothing is sent |
| `Status.Vhd.Established` | libwebsockets/plugins/protocol_lws_status.c:106-127 | The new session is at the head of the live list, no session is quiescent, and everything stays consistent |
| `Status.Vhd.Closed` | libwebsockets/plugins/protocol_lws_status.c:211-222 | The session is gone from the live list, no session is quiescent, and walks that point to it stay consistent |
| `Status.Vhd.Search` | libwebsockets/plugins/protocol_lws_status.c:154-161 | Finds the next session in the live list, or that it went away, and the one behind it |
| `Status.Vhd.Writeable` | libwebsockets/plugins/protocol_lws_status.c:129-205 | Exactly one frame goes out unless the session is quiescent, the number of frames to go decreases by one, and everything stays consistent |
| `Status.Vhd.QuiescentIsUpToDate` | libwebsockets/plugins/protocol_lws_status.c:129-205 | In every valid state a quiescent session has last completed a message that lists exactly the live sessions, once each and in list order |
| `Status.Vhd.Settle` | libwebsockets/plugins/protocol_lws_status.c:145-195 | Without further changes a session is quiescent after a number of frames that its state tells exactly, at most two messages about the live list |
| `Status.Run` | libwebsockets/plugins/protocol_lws_status.c:106-222 | Over any joins, leaves and writeable callbacks: every session keeps the framing of section 5.4 of RFC 6455, and every quiescent session is up to date |
| `Glob.SafeFNMatch` | glog/src/vlog_is_on.cc:73-98 | The loop and the recursion end, and compute the recursive definition of the matcher |
| `Glob.Sound` | glog/src/vlog_is_on.cc:73-98 | For every pattern and every text, a match that is reported is a glob match |
| `Glob.Exact` | glog/src/vlog_is_on.cc:73-98 | For every text without `*`, the answer is the glob match of the pattern in which two or more stars at the end ask for one more character |
| `Glob.CompleteExactlyWhen` | glog/src/vlog_is_on.cc:73-98 | The answers are glob matching on all texts without `*` if and only if the pattern does not end in two stars |
| `Glob.StarInText` | glog/src/vlog_is_on.cc:81-95 | A concrete text with a `*` for which a glob match is missed |
| `Vlog.BaseNameOfPath` | glog/src/vlog_is_on.cc:234-250 | For every path: the name that is matched is the file name up to its first dot, without a trailing "-inl", with or without directories |
| `Vlog.FlagMeans` | glog/src/vlog_is_on.cc:135-157 | A flag of pieces `pattern=number` with anything behind the number, joined by commas, means exactly these pairs in their order |
| `Vlog.Vlog.ParseFlag` | glog/src/vlog_is_on.cc:135-157 | Makes exactly the entries of the flag, in their order, skipping those that have no number |
| `Vlog.Vlog.Initialize` | glog/src/vlog_is_on.cc:130-163 | The entries of the flag come before all others, and the cache stays valid |
| `Vlog.Vlog.FirstFor` | glog/src/vlog_is_on.cc:257-266 | The default exactly if no entry matches; otherwise the entry that matches while no earlier one does |
| `Vlog.Vlog.InitVLOG3` | glog/src/vlog_is_on.cc:219-291 | The statement is on exactly if the level of the first entry that decides for its file, or the default level without one, is at least that of the statement; the site is bound to that level exactly if the flag was already parsed; the cache stays valid |
| `Vlog.Vlog.VlogIsOn` | glog/src/vlog_is_on.cc:219-291 | A bound site is answered with the present level of the entry or default it is bound to, and any other with that of the first entry that decides; a site that is bound stays bound; the cache stays valid |
| `Vlog.Vlog.ChangeLevels` | glog/src/vlog_is_on.cc:172-187 | Every entry with the same pattern and no other gets the level, and the old level of the first answering entry is returned |
| `Vlog.Vlog.Redirect` | glog/src/vlog_is_on.cc:195-210 | Exactly the default-bound sites that the new pattern matches are bound to the new entry and leave the cache, which stays without duplicates |
| `Vlog.Vlog.SetVLOGLevel` | glog/src/vlog_is_on.cc:166-215 | The old level is returned, all entries of the pattern change or one new entry is added at the head, and exactly the matching default-bound sites are redirected |
| `Vlog.SetThenAsk` | glog/src/vlog_is_on.cc:166-291 | After a level was set for a pattern, a statement is on exactly if its own level is not above it, when its site is bound to that pattern or was on the default and the pattern is a new one that matches; and otherwise as before |
| `Vlog.Run` | glog/src/vlog_is_on.cc:130-291 | Over any run: an initialised site points at the default exactly when no pattern matches its base name, the cache holds exactly these sites once each, and a site bound to an entry at any time is still bound to it |
| `LineReader.ReadFromOffset` | glog/src/symbolize.cc:142-166 | Reads all there is up to the count, however short the single reads are, or reports an error that happened |
| `LineReader.Reader.Advance` | glog/src/symbolize.cc:410-438 | The buffer holds the file from the next line on: a whole line, a full buffer or the rest of the file; or there is no such line |
| `LineReader.Reader.ReadLine` | glog/src/symbolize.cc:405-448 | Succeeds exactly when the next line with its newline fits in the buffer (unless a read failed), gives exactly that line, terminated, and stands behind it |
| `LineReader.LinesAreThePrefix` | glog/src/symbolize.cc:405-448 | The lines, each with its newline, are the file up to the first line that is too long or not terminated |
| `LineReader.ReadLines` | glog/src/symbolize.cc:394-483 | For every file, offset, buffer size and sizes of reads: repeated reading gives exactly the lines of the file, and with failed reads a prefix of them |
| `HexText.ItoaR` | glog/src/symbolize.cc:668-720 | Succeeds exactly for a base from 2 to 16 with max(1, digits, padding) + 1 <= sz; then the buffer holds the digits and a NUL; otherwise an empty string; nothing behind sz is touched |
| `HexText.TextLength` | glog/src/symbolize.cc:686-703 | The number of characters is the greater of the number of digits and the padding |
| `HexText.DigitCountIs` | glog/src/symbolize.cc:688-703 | n digits suffice exactly for the numbers below base^n |
| `HexText.TextDenotes` | glog/src/symbolize.cc:688-716 | In every base, padded or not, the text denotes the number |
| `HexText.PutDigits` | glog/src/symbolize.cc:688-703 | The digits come out least significant first, and the loop gives up exactly when they and the NUL do not fit |
| `HexText.ReverseInPlace` | glog/src/symbolize.cc:708-716 | The in-place swap reverses the text |
| `HexText.GetHex` | glog/src/symbolize.cc:486-502 | Reads the longest run of hexadecimal digits and gives its value in 64 bits |
| `HexText.TextValue` | glog/src/symbolize.cc:674-720 | The text of a 64-bit number in base 16 is all hexadecimal digits, and its value is the number |
| `HexText.RoundTrip` | glog/src/symbolize.cc:486-502 | What is written in base 16 is read back completely and as the same number, for every 64-bit number and padding |
| `WifiScan.AverageInRange` | libwebsockets/plugins/protocol_esp32_lws_scan.c:250-257 | A shown average lies between the least and the greatest reading behind it, and the sum fits in 32 bits |
| `WifiScan.MergeAddsReading` | libwebsockets/plugins/protocol_esp32_lws_scan.c:274-281 | Every merge adds the reading to the sum, which is halved before, with its count, exactly if there were 128 readings or more |
| `WifiScan.MergeStandsFor` | libwebsockets/plugins/protocol_esp32_lws_scan.c:274-281 | Merging a reading, halving included, keeps the entry within its readings and its count from 1 to 128, and exact for up to 128 readings |
| `WifiScan.KnownAps.MergeIntoMatch` | libwebsockets/plugins/protocol_esp32_lws_scan.c:270-283 | Exactly the entry with the same ssid and bssid gets the reading; without one, nothing changes |
| `WifiScan.KnownAps.Trim` | libwebsockets/plugins/protocol_esp32_lws_scan.c:285-294 | Exactly what is behind the first max_aps - 1 entries is removed |
| `WifiScan.KnownAps.FindWorst` | libwebsockets/plugins/protocol_esp32_lws_scan.c:311-321 | Finds the last of the weakest entries; there is none exactly when all averages are positive |
| `WifiScan.KnownAps.Sort` | libwebsockets/plugins/protocol_esp32_lws_scan.c:306-332 | A stable sort, strongest first: a permutation in which the entries of each average keep their order |
| `WifiScan.KnownAps.InsertTrim` | libwebsockets/plugins/protocol_esp32_lws_scan.c:259-335 | The reading is noted for its key, and while 12 keys are enough the list has exactly its keys and that one; it is the stable sort of the list with the reading merged or the entry added; only the weakest entry goes, and only from a full list |
| `WifiScan.ScanFinished` | libwebsockets/plugins/protocol_esp32_lws_scan.c:350-380 | With memory, and room for the keys: the list has exactly the old keys and those of the first ten records, and the readings of each are the old ones followed by those of these records in their order |
| `WifiScan.Run` | libwebsockets/plugins/protocol_esp32_lws_scan.c:259-380 | Over any scans: at most 12 entries, distinct keys, strongest first, counts from 1 to 128, and every average between two readings of the same access point; with memory and at most 12 keys the list has exactly those of the first ten records of each scan, and up to 128 readings each count and sum is that of all of them |
| `LogFile.LogFileObject.MaxLogSize` | glog/src/logging.cc:352-357 | The limit is from 1 to 4095 MiB, so that it fits in 32 bits |
| `LogFile.ContiguousFromZero` | glog/src/logging.cc:1310-1327 | The dropped ranges begin at 0, are of whole MiB, and none overlaps another |
| `LogFile.ContiguousCovers` | glog/src/logging.cc:1310-1327 | Every byte below the dropped length is in one of the dropped ranges |
| `LogFile.LogFileObject.Below32` | glog/src/logging.cc:1152-1157 | No counter of a valid object wraps, the dropped length never exceeds the counted length, and the counted length is that of the open file exactly if nothing was carried over from a file of another name |
| `LogFile.LogFileObject.SetBasename` | glog/src/logging.cc:992-1004 | A new name closes the file and makes the next message open another, while the counters go on |
| `LogFile.LogFileObject.Roll` | glog/src/logging.cc:1152-1157 | The file is closed and all counters reset exactly when it has reached the limit or the process is another, and the size it had is on record |
| `LogFile.LogFileObject.Open` | glog/src/logging.cc:1160-1276 | Without a file every 32nd message tries to open one, and the header is counted without wrapping |
| `LogFile.LogFileObject.DropMemory` | glog/src/logging.cc:1310-1327 | The subtractions do not underflow; a range is dropped exactly when 2 MiB or more can be; it leaves the last 1 to 2 MiB of the counted length, and the last MiB of the file exactly if no more than the odd part of a MiB was carried over |
| `LogFile.LogFileObject.Append` | glog/src/logging.cc:1279-1328 | A message is counted, without wrapping, exactly if it is written; a flush follows exactly when it is forced, 10^6 bytes are waiting or its time has come; pages are dropped only behind a flush |
| `LogFile.LogFileObject.Write` | glog/src/logging.cc:1141-1337 | The outcome and all counters after a message, for every state: a file is given up exactly when it has as many MiB as the flag says, or one MiB for a flag that is not from 1 to 4095, or the process is another; otherwise it goes on; nothing wraps |
| `LogFile.Run` | glog/src/logging.cc:992-1337 | Over any run with headers and messages below 1 MiB: LogSize() stays below the limit of the flag plus header and message, every file that is given up within a process has reached that limit, and no page is dropped twice between resets |
| `LogFile.RenamedTail` | glog/src/logging.cc:992-1004 | A concrete run in which a new name makes the code drop all pages of the new file, the most recent included, against its comment |
| `LogTruncate.CopyDown` | glog/src/logging.cc:2427-2442 | For all sizes of reads and writes: the block copy over overlapping regions moves the end of the file to its beginning, completely exactly when no read fails and no write fails or is short |
| `LogTruncate.TruncateLogFile` | glog/src/logging.cc:2380-2449 | A file larger than both numbers becomes its last `keep` bytes exactly when all transfers work, and any other file is unchanged |
| `LogTruncate.PromiseKeptWhen` | glog/src/logging.cc:2418-2428 | The file becomes what is promised if and only if it is empty, or both numbers are below 2^63, or one of the two comparisons in signed arithmetic stops the code |
| `LogTruncate.KeepsNothing` | glog/src/logging.cc:2418-2428 | A concrete call that is asked to keep everything and throws everything away |

## Left out

- Demangling.Demangle: for the two sizes that leave less than two spare cells behind the text and its NUL, the exact claim is made only while the abandoned attempts fit (`waste`), because in such a buffer the code can succeed with a damaged text (`DemangleDamage.DamagedExample`); the condition is then on the output function, not on the mangled name.
- Demangling.Demangle: texts on which a negative length moves the cursor back are excluded by its precondition: the cursor then leaves the grammar, and the code need not end (`DemangleEdges.StrayRound`), though it may (`DemangleEdges.StrayMayEnd`); lengths are unbounded integers and `nest_level` does not wrap.
- Demangling.Demangler.ParseMangledName: the alternatives of one C function are methods of their own, and `Optional`, `OneOrMore` and `ZeroOrMore` are written out at their uses, because methods are not values.
- Demangling.Demangler.MaybeAppendName: a character of `prev_name` that would lie behind the end of the buffer is looked up as a NUL.
- DemangleEnds.SymbolEnds: only sufficient for casts, special names and local names, where an empty end may still have the NUL of what came before it (`DemangleDamage.EmptyCastEnds`); exact for plain names.
- DemangleRoundTrip.RoundTrip: what is recognised and written, but not mangled back: `sizeof` of a type and scoped names in expressions, expressions that are not template arguments (in `decltype` and in array bounds), argument packs that begin with `I`, `LZ` literals, and discriminators behind names that are not at the end of a symbol, where the digits of a following type would be read as theirs. A literal of type `__int128` is excluded (`DemangleEdges.WideLiteral`), and so are template arguments behind an identifier that ends in `<`, from which they are kept apart by a space.
- DemangleRoundTrip.DemangleMangled: for symbols that are not functions, success is stated with two spare cells, because the code reads a name twice and cancels a separator behind it.
- The Windows branch of the demangler, and reading symbol tables, `/proc` and ELF files.
- LwsRing.Ring.Insert: elements stand for runs of bytes; `lws_ring.c` is not part of this model, so the ring is written from its header, and a ring of n slots holds n - 1 elements.
- Mirror.Instance.Established: the list of instances, their names and their limit of three; a session that joins while rx is disabled is not flow controlled by the code, and flow control is modelled per instance only.
- Mirror.Instance.Step: timeouts, locks, and eventual delivery; a session whose write failed is closed before the next callback.
- Status.Vhd.Writeable: the JSON text, `count_live_pss`, and failed writes, after which the session is closed.
- Vlog.Vlog.ParseFlag: `sscanf` is a parameter; all sites share one default level, and locks are left out.
- Glob.SafeFNMatch: completeness for texts with a `*` has no condition of its own; a missed match is shown instead.
- LineReader.Reader.ReadLine: EINTR; a reader is not used again after it has returned false, and does not start behind the end of the file.
- HexText.ItoaR: arithmetic of `size_t`, which cannot overflow before memory ends.
- WifiScan.KnownAps.Sort: needs averages that are not positive, because the code does not end when only entries with positive averages are left; `FindWorst` states exactly when it finds none.
- WifiScan.ScanFinished: the session states and the copy of the SSID, which may be cut to 31 characters.
- LogFile.LogFileObject.Write: the text of header and file name, symbolic links, the cleaner of old logs, and content that a file had before it was opened.
- LogFile.LogFileObject.Append: `stop_writing` is a field, though all objects share it.
- LogTruncate.TruncateLogFile: symbolic links, and other processes that write to the file meanwhile.
- `LogMessage` streams, sinks, colours, time formats, stack unwinding, signal handlers and the remaining plugins: plumbing, or easy members.
