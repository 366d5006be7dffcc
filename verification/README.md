# parle, modelled in Dafny

parle is a PHP extension. It builds lexers and LALR(1) parsers at run time from PHP code. It wraps two C++ header
libraries that ship with it:

- lexertl, which turns regular-expression rules into a DFA lexer;
- parsertl, which turns bison-like grammar rules into an LR state machine.

parsertl is vendored in three generations:

- the newest, `lib/parsertl14/include/parsertl`;
- the older, `lib/parsertl14/parsertl`;
- the oldest, `lib/parsertl`.

This project models the core of those libraries and of the extension as pure Dafny functions and
short loop methods over immutable datatypes. It proves what each operation guarantees:

- **Grammar registry** (`basic_rules`, newest and oldest). Name checks, symbol ids, precedence levels,
  production chains, the EBNF front end of `push` driven by its embedded bison tables, and `validate`'s
  augmentation with `$accept`. Modules: `Grammar`, `ProductionChains`, `Rules`, `RulesOld`, `EbnfParse`,
  `EbnfTables`, `EbnfTablesOld`, `BisonLookup`.
- **Table generator** (`basic_generator`). `set_add`/`set_union`, `fill_entry`'s conflict resolution,
  LR(0) closure and state de-duplication, the lookahead rewrite, nullable/FIRST/FOLLOW as least fixpoints, and
  the action table. Each is proved for both the newer (compressed) and the older (flat) table. Modules: `BitSet`,
  `FillEntry`, `Lr0`, `Rewrite`, `Fixpoints`, `BuildTable`, `Generator`.
- **LR runtime**. `match_results`, one `lookup` step with and without the token vector, `parse`, `match`,
  the three generations of `search` (`prod_set`, `prod_map` and captures forms), and the parser, search
  and capture iterators. Modules: `ParserStateMachine`, `MatchResults`, `Lookup`, `Parse`, `Match`, `Capture`,
  `SearchRun`, `Search`, `SearchMap`, `SearchOlder`, `SearchOldest`, `ParserIterator`, `SearchIterator`,
  `CaptureIteratorOld`.
- **Serialisers**. The text `save`/`load` of lexer and parser state machines, with their round trips.
  Modules: `Decimal`, `LexerSerialise`, `ParserSerialise`, `Internals`.
- **lexertl pieces**. `basic_equivset`, the regex tokeniser's cursor, and `replace`. Modules: `EquivSet`,
  `ReTokeniserState`, `Replace`.
- **Pretty-printers**. `basic_debug` of both generations. The newer one is written as functions on
  strings; the older one's loops are proved to write the same text. Modules: `Debug`, `DebugOld`.
- **The extension** (`parle.cpp`, `lib/parle/lexer/iterator.hpp`). The builder lifecycle of lexer and parser
  objects, the lexer and parser methods with their guards, `Parle\Stack`, and parle's own lexer iterator.
  Modules: `Parle`, `ParleLexer`, `ParleParser`, `LexerIterator`.
- **The bench's query-string decoder** (`bench/parse_str.impl.php`): a grammar registered through the
  extension, whose reduction handlers build nested PHP arrays. Module: `ParseStr`.

Shared conventions:

- The lexer, as the runtime sees it, is a cursor over a token sequence (`TokenStream`). Reading past the end yields
  the end-of-input token (id 0).
- A call can return, throw, or do something the C++ leaves undefined (a null or out-of-range read). This is the
  `Outcome` datatype (`Returned`, `Threw`, `Crashed`, plus `OutOfFuel` where a loop is bounded by fuel). At leaf
  level undefined behaviour is `Behaviour.Undefined`.
- `id_type` is `uint16_t`, so values stored into tables are taken modulo 65536. `npos` is 2^64 - 1.

## Model

| member | source | states |
|---|---|---|
| BisonLookup.ToSizeT | lib/parsertl14/parsertl/bison_lookup.hpp:61 | a non-negative `int` stored into the `size_t` param keeps its value |
| BisonLookup.NextAction | lib/parsertl14/parsertl/bison_lookup.hpp:15-77 | an unknown lexeme (id npos) is an unknown-token error without reading the tables; the state stack is never changed; on well-formed bison tables every table read is in range, and the decoded action is a syntax error, a reduce by an existing rule, a shift to an existing state or accept |
| BisonLookup.TakeGoto | lib/parsertl14/parsertl/bison_lookup.hpp:118-130 | the go_to case pushes exactly one state, keeps the stack below it, and leaves a go_to entry whose param is the pushed state |
| BisonLookup.Step | lib/parsertl14/parsertl/bison_lookup.hpp:80-134 | error and accept change nothing; a shift pushes the target state, advances the lexer unless the token was EOI and reports npos as an unknown token; a reduce pops the rule's rhs length and then takes the goto |
| BisonLookup.TokenStep | lib/parsertl14/parsertl/bison_lookup.hpp:137-199 | the token-vector overload moves the parser exactly as the plain one does; a shift appends the current token, a reduce replaces the rule's rhs tokens by one token spanning them (an empty one at the next token for an empty rule) |
| BitSet.Empty | lib/parsertl14/include/parsertl/generator.hpp:533 | a zero-filled `char_vector` of the given size holds no member |
| BitSet.SetAdd | lib/parsertl14/include/parsertl/generator.hpp:605-613 | `set_add` is defined exactly when the element is in range; it adds exactly that element and returns true exactly when it was not there |
| BitSet.SetUnion | lib/parsertl14/include/parsertl/generator.hpp:615-634 | `set_union` is defined exactly when the rhs is at least as long; the lhs gains exactly the rhs members that fit in it, and the result flag says whether it grew |
| BitSet.UnionMembers | lib/parsertl14/include/parsertl/generator.hpp:615-634 | the loop's members and change flag agree with the set reading of `set_union` (both directions) |
| BuildTable.AsId | lib/parsertl14/include/parsertl/generator.hpp:519 | `static_cast<id_type>` yields a 16-bit value and leaves values already in range unchanged |
| BuildTable.Claim | lib/parsertl14/include/parsertl/generator.hpp:513-523 | one claim of a cell goes through `fill_entry`: only that cell changes, to the resolved entry, and a conflict is reported only when the generation reports warnings |
| BuildTable.ClaimLeaves | lib/parsertl14/include/parsertl/generator.hpp:513-523 | the resolved cell is the old entry, the new one, or the non-associative error when a reduce meets it, and never the empty default |
| BuildTable.ShiftRowFills | lib/parsertl14/include/parsertl/generator.hpp:509-524 | on a fresh row the transitions' loop never conflicts, sets every transition column to its shift or goto entry and leaves every other column alone |
| BuildTable.Lookahead | lib/parsertl14/include/parsertl/generator.hpp:533-547 | a terminal is in the accumulated lookahead exactly when it was already, or it is in the follow set of a rewritten production matching this completed item and ending at this state |
| BuildTable.ClaimAllOk | lib/parsertl14/include/parsertl/generator.hpp:549-563 | claiming every lookahead terminal keeps params in range, changes only lookahead columns, and each changed column holds the claimed entry or the non-associative error |
| BuildTable.LookaheadOf | lib/parsertl14/include/parsertl/generator.hpp:531-547 | the reduction's lookahead is exactly the union of the follow sets of the matching rewritten productions |
| BuildTable.ReduceRowOk | lib/parsertl14/include/parsertl/generator.hpp:526-565 | the reductions' loop changes only the columns some completed item reduces on, each to a reduce (accept for the start rule) or a resolution of one |
| BuildTable.EmptyRow | lib/parsertl14/include/parsertl/generator.hpp:503-505 | a fresh row holds the default entry in every column |
| BuildTable.BuildRowOk | lib/parsertl14/include/parsertl/generator.hpp:507-568 | a cell of a built row is empty exactly when the state has no transition on that column and no completed item reduces on it; otherwise it holds what the shifts and reductions claimed |
| BuildTable.BuildRows | lib/parsertl14/include/parsertl/generator.hpp:507-568 | the table has one row per DFA state, each built from that state alone |
| BuildTable.ShiftRowAgrees | lib/parsertl14/parsertl/generator.hpp:495-519 | the older generator's shifts give the same row, its conflict reports being the newer ones when warnings are wanted and none otherwise |
| BuildTable.ClaimAllAgrees | lib/parsertl14/parsertl/generator.hpp:543-560 | the same agreement for claiming a lookahead |
| BuildTable.ReduceRowAgrees | lib/parsertl14/parsertl/generator.hpp:521-561 | the same agreement for the reductions of a row |
| BuildTable.BuildRowAgrees | lib/parsertl14/parsertl/generator.hpp:495-563 | the same agreement for a whole row |
| BuildTable.BuildRowsAgree | lib/parsertl14/parsertl/generator.hpp:478-565 | the older `build_table` computes the same table as the newer one, with conflicts reported as its warnings flag says |
| BuildTable.FlattenSize | lib/parsertl14/parsertl/generator.hpp:493 | the older flat table has rows times columns cells |
| BuildTable.FlattenIndex | lib/parsertl14/parsertl/generator.hpp:501 | cell `index_ * columns_ + id_` of the flat table is cell (row, column) of the grid |
| BuildTable.Compress | lib/parsertl14/include/parsertl/generator.hpp:523 | the stored cells of a row are exactly its non-default entries |
| BuildTable.AtReadsRows | lib/parsertl14/include/parsertl/generator.hpp:513 | reading the state machine at (row, column) gives the grid cell, and the default entry outside the grid |
| BuildTable.FlatAt | lib/parsertl14/parsertl/lookup.hpp:38-40 | the older runtime's unchecked read `_table[state * _columns + id]` yields a cell of the flat table whenever the flat index lies within it |
| BuildTable.FlatAtReadsCell | lib/parsertl14/parsertl/lookup.hpp:38-40 | the flat read at (row, column) is the grid cell with the same flat index: the cell itself for a column in range, a later row's cell for a larger one |
| BuildTable.FlatReadsAgree | lib/parsertl14/parsertl/match_results.hpp:53 | for a lexeme id below the column count, the flat reads of the older `lookup` and `match_results::reset` give the entry the model reads with `At` |
| BuildTable.FlatAtCrossesRows | lib/parsertl14/parsertl/lookup.hpp:38-40 | an id past the column count reads the next row's shift where `At` reads a syntax error |
| Capture.Length | lib/parsertl14/include/parsertl/capture.hpp:55-58 | `length()` is a `size_t`, the distance from first to second when that is representable |
| Capture.Str | lib/parsertl14/include/parsertl/capture.hpp:44-47 | `str()` is defined exactly when first <= second lies within the text, and is the characters between them |
| Capture.Substr | lib/parsertl14/include/parsertl/capture.hpp:49-53 | `substr(s, e)` is defined exactly when the trimmed range is a valid range within the text |
| Capture.StrHasLength | lib/parsertl14/include/parsertl/capture.hpp:39-58 | `str()` has `length()` characters and is empty exactly when the capture is `empty()` |
| Capture.SubstrTrimsStr | lib/parsertl14/include/parsertl/capture.hpp:44-53 | `substr(s, e)` is `str()` with s characters dropped at the front and e at the back |
| CaptureIteratorOld.Resume | lib/parsertl14/parsertl/iterator.hpp:88 | the next search starts where the last whole match ended, and reading that needs a first capture row that is not empty |
| CaptureIteratorOld.Advance | lib/parsertl14/parsertl/iterator.hpp:86-97 | `lookup()` is defined exactly on a non-end iterator with a match to resume from; it keeps the end, takes the search's captures and becomes the end iterator when the search misses |
| CaptureIteratorOld.MakeSearchesFromStart | lib/parsertl14/parsertl/iterator.hpp:33-42 | the constructor searches from the start position and is the end iterator exactly when that search misses |
| CaptureIteratorOld.StepsChain | lib/parsertl14/parsertl/iterator.hpp:44-48 | each increment searches from where the previous match ended |
| CaptureIteratorOld.EndCannotAdvance | lib/parsertl14/parsertl/iterator.hpp:86-92 | incrementing the end iterator dereferences null state machines |
| CaptureIteratorOld.PostIncrement | lib/parsertl14/parsertl/iterator.hpp:50-56 | post-increment returns the iterator as it was and advances it like pre-increment |
| CaptureIteratorOld.DefaultIsEnd | lib/parsertl14/parsertl/iterator.hpp:26-31 | the default iterator is the end, and an iterator equals it exactly when its state machine pointers are null |
| Debug.AddToken | lib/parsertl14/include/parsertl/debug.hpp:39-51 | filing a token in the sorted token map keeps it sorted; the token's key reads the old names followed by a space and the new name, or just the new name, and every other key is unchanged |
| Debug.GroupsUpTo | lib/parsertl14/include/parsertl/debug.hpp:35-52 | the map built over the tokens after EOI is ordered by (precedence, associativity) |
| Debug.GroupsGather | lib/parsertl14/include/parsertl/debug.hpp:35-52 | a key is in the token map exactly when some token after EOI has that precedence and associativity, and its entry is those tokens' names in id order, space separated |
| Debug.StartLine | lib/parsertl14/include/parsertl/debug.hpp:80-88 | the `%start` line is written exactly when a start symbol is set, and names it between blank lines |
| Debug.Printed | lib/parsertl14/include/parsertl/debug.hpp:211-225 | the rhs names printed are at most one per symbol, and every symbol when none is `$` (id 0) |
| Debug.AltWords | lib/parsertl14/include/parsertl/debug.hpp:196-233 | split on spaces, one printed alternative is its rhs words (or `%empty`) followed by `%prec` and its token when there is one |
| Debug.Chain | lib/parsertl14/include/parsertl/debug.hpp:184-187 | following `_next_lhs` from a production visits only productions of the grammar, starting with it |
| Debug.ChainVisitsAll | lib/parsertl14/include/parsertl/debug.hpp:184-187 | on chained productions, the `_next_lhs` chain from a production is exactly the productions of the same lhs from it on, in order |
| Debug.InLhsBefore | lib/parsertl14/include/parsertl/debug.hpp:176 | the seen set at production n holds exactly the lhs of the productions before n |
| Debug.HeadsDistinct | lib/parsertl14/include/parsertl/debug.hpp:173-191 | the grammar loop prints a block per lhs not seen before, and no lhs twice |
| Debug.HeadsCover | lib/parsertl14/include/parsertl/debug.hpp:173-191 | every lhs of the remaining productions was seen before or gets its block |
| Debug.HeadsInOrder | lib/parsertl14/include/parsertl/debug.hpp:173-191 | the blocks come in the order of each lhs's first production |
| Debug.SectionIsBlock | lib/parsertl14/include/parsertl/debug.hpp:176-190 | the block printed at a production that opens its lhs is the block of all that lhs's productions |
| Debug.GrammarBySections | lib/parsertl14/include/parsertl/debug.hpp:169-193 | the grammar section is one block per distinct lhs, in first-appearance order, each block listing every production of that lhs |
| Debug.Dump | lib/parsertl14/include/parsertl/debug.hpp:22-97 | `dump(rules)` writes the directive lines of the token map, the start line, `%%`, one block per lhs and a closing `%%` |
| Debug.RhsNames | lib/parsertl14/include/parsertl/debug.hpp:254-274 | an item's rhs names are one per symbol, each the symbol's name |
| Debug.DotMarked | lib/parsertl14/include/parsertl/debug.hpp:254-274 | an item's rhs is printed as its names, each preceded by a space, with ` .` inserted before the symbol at the dot, or at the end when the dot is there |
| Debug.ItemLines | lib/parsertl14/include/parsertl/debug.hpp:115-135 | a state prints one line per closure item, in closure order |
| Debug.TransitionLines | lib/parsertl14/include/parsertl/debug.hpp:140-150 | a state prints one line per transition, in order |
| Debug.ItemWords | lib/parsertl14/include/parsertl/debug.hpp:115-135 | split on spaces, an item line is two leading blanks, the lhs name, `->` and the dot-marked rhs names |
| Debug.LinesOfTerminated | lib/parsertl14/include/parsertl/debug.hpp:134 | text written as lines each ended by a newline splits back into those lines |
| Debug.StateTextLines | lib/parsertl14/include/parsertl/debug.hpp:107-153 | a state's text is its header, blank line, item lines, a blank line before any transitions, the transition lines and a closing blank line, each newline-terminated |
| Debug.DfaTextLines | lib/parsertl14/include/parsertl/debug.hpp:107-153 | the automaton dump is the concatenation of the states' lines |
| Debug.DumpDfaLines | lib/parsertl14/include/parsertl/debug.hpp:99-153 | split on newlines, `dump(rules, dfa)` gives back exactly the lines of every state in order |
| Debug.StateLinesFree | lib/parsertl14/include/parsertl/debug.hpp:107-153 | no line of a state contains a newline of its own, which is what makes the line split exact |
| DebugOld.Dump | lib/parsertl14/parsertl/debug.hpp:22-158 | the older `dump(rules)` writes exactly the text of the newer one |
| DebugOld.TokenMap | lib/parsertl14/parsertl/debug.hpp:33-51 | the older token-map loop builds the same map as the newer |
| DebugOld.Directives | lib/parsertl14/parsertl/debug.hpp:53-76 | the directive loop writes one `%token`/`%precedence`/`%nonassoc`/`%left`/`%right` line per map entry, in key order |
| DebugOld.Productions | lib/parsertl14/parsertl/debug.hpp:87-155 | the older grammar loop, with the production printing inlined, writes the newer grammar section |
| DebugOld.Alternatives | lib/parsertl14/parsertl/debug.hpp:97-148 | the inner `while (index_ != ~0)` loop writes the newer alternatives of the `_next_lhs` chain |
| DebugOld.AlternativesTurn | lib/parsertl14/parsertl/debug.hpp:98-140 | one turn of the chain loop writes a prefix of the whole alternatives text: the last alternative completes it, and any other is followed by a newline, the lhs-wide indent and `|` and then the rest of the chain, whose next production has the same lhs |
| DebugOld.AlternativesStep | lib/parsertl14/parsertl/debug.hpp:131-148 | one alternative is printed, then either the chain ends or it continues at a later production of the same lhs after a newline, indentation and `\|` |
| DebugOld.DumpDfa | lib/parsertl14/parsertl/debug.hpp:160-218 | the older `dump(rules, dfa)` writes exactly the text of the newer one |
| DebugOld.State | lib/parsertl14/parsertl/debug.hpp:166-216 | one state's text as in the newer dump |
| DebugOld.Items | lib/parsertl14/parsertl/debug.hpp:172-202 | the closure loop writes the item lines, each newline-terminated |
| DebugOld.Transitions | lib/parsertl14/parsertl/debug.hpp:207-213 | the transition loop writes the transition lines, each newline-terminated |
| DebugOld.Item | lib/parsertl14/parsertl/debug.hpp:174-199 | the item loop with the rhs printing inlined writes the newer item line |
| Decimal.DigitChar | lib/lexertl14/include/lexertl/stream_num.hpp:13-17 | the digit character written for d is a decimal digit whose distance from `'0'` is d |
| Decimal.ShowNat | lib/lexertl14/include/lexertl/stream_num.hpp:13-17 | `ss_ << num_` writes a non-empty run of digits without a leading zero (unless the number is 0) whose decimal value is the number |
| Decimal.SkipSpace | lib/parsertl14/include/parsertl/serialise.hpp:66-68 | skipping leading whitespace leaves a suffix no longer than the input that is empty or starts with a non-space |
| Decimal.DigitRun | lib/parsertl14/include/parsertl/serialise.hpp:66-68 | the digit run read is the longest prefix of digits |
| Decimal.ReadNat | lib/parsertl14/include/parsertl/serialise.hpp:66-68 | a successful `stream_ >> num_` consumes at least one character |
| Decimal.ReadShowNat | lib/parsertl14/include/parsertl/serialise.hpp:19-68 | reading back a written number followed by anything gives the number and the rest with its leading whitespace skipped |
| Decimal.ShowNatInjective | lib/lexertl14/include/lexertl/stream_num.hpp:13-17 | distinct numbers are written as distinct texts |
| Decimal.ShowNatLength | lib/lexertl14/include/lexertl/stream_num.hpp:13-17 | a number below 10^k is written in at most k digits |
| EbnfParse.LexemeId | lib/parsertl14/include/parsertl/rules.hpp:131-157 | the rule lexer reports npos for an unrecognised lexeme and otherwise an id below 262, never the end-of-input id 0 for a lexeme |
| EbnfParse.LexerOf | lib/parsertl14/include/parsertl/rules.hpp:306-307 | the lexeme stream starts at its first lexeme, and lexeme i is the token with that lexeme's id spanning [i, i+1) |
| EbnfParse.Span | lib/parsertl/token.hpp:40-43 | `token::str()` is the lexemes between the token's first and second position, and nothing for an empty token |
| EbnfParse.RoleSize | lib/parsertl14/include/parsertl/rules.hpp:325-495 | a handled role assumes a rhs length, and only the unhandled (default) case assumes none |
| EbnfParse.WrittenRolesFitOlder | lib/parsertl14/include/parsertl/rules.hpp:791-813 | the `ebnf_indexes` numbering as written gives each rule of the older EBNF grammar a handler written for a rule of its rhs length |
| EbnfParse.OlderRolesMatch | lib/parsertl14/parsertl/ebnf_tables.hpp:62-73 | under the older tables the written numbering and the rule lengths `yyr2` agree rule by rule |
| EbnfParse.CorrectedRolesFitNewer | lib/parsertl14/include/parsertl/ebnf_tables.hpp:63-74 | the numbering shifted for the newer grammar's extra rule gives each newer rule a handler of its rhs length |
| EbnfParse.NewerRolesMatch | lib/parsertl14/include/parsertl/ebnf_tables.hpp:63-74 | the corrected numbering agrees with the newer tables' `yyr2` rule by rule |
| EbnfParse.NewerAsWrittenRolesMismatch | lib/parsertl14/include/parsertl/rules.hpp:373-381 | with the newer tables, rule 9 (one symbol) is handled as `rhs_list_2`, which pops two strings, so the written numbering does not match the tables |
| EbnfParse.Begin | lib/parsertl14/include/parsertl/rules.hpp:306-318 | the parse starts on the lexeme stream with no productions and the stack holding state 0 |
| EbnfParse.DriveKeeps | lib/parsertl14/include/parsertl/rules.hpp:320-500 | a property that the semantic actions, `bison_lookup` and `bison_next` all preserve holds of the state the loop ends with |
| EbnfTables.Translate | lib/parsertl14/include/parsertl/ebnf_tables.hpp:33-62 | `yytranslate` maps every lexeme id to one of the 18 bison token numbers |
| EbnfTables.TablesWellFormed | lib/parsertl14/include/parsertl/ebnf_tables.hpp:14-112 | the newer EBNF tables are well formed for `bison_next`/`bison_lookup`: every rule's lhs is a nonterminal, every state and rule number in range |
| EbnfTablesOld.TablesWellFormed | lib/parsertl14/parsertl/ebnf_tables.hpp:13-109 | the older EBNF tables are well formed in the same sense |
| EbnfTablesOld.AsUnsignedChar | lib/parsertl14/parsertl/ebnf_tables.hpp:80-107 | read as unsigned `char`, every table entry lies in 0..255 and the non-negative ones keep their value |
| EbnfTablesOld.IdentifierShiftedFirst | lib/parsertl14/parsertl/ebnf_tables.hpp:84-107 | where `char` is signed, an IDENTIFIER in the start state is shifted into state 2 |
| EbnfTablesOld.UnsignedCharChangesFirstAction | lib/parsertl14/parsertl/ebnf_tables.hpp:84-107 | where `char` is unsigned and the narrowing list-initialisation is let through, the same input is reduced by rule 5 instead |
| EquivSet.Least | lib/lexertl14/lexertl/partition/equivset.hpp:40 | the least element of a non-empty set of indexes is in the set and below every other member, the element `std::set` iteration yields first |
| EquivSet.Ordered | lib/lexertl14/lexertl/partition/equivset.hpp:40 | copying a `std::set` into the index vector gives its members in strictly increasing order, each once |
| EquivSet.Make | lib/lexertl14/lexertl/partition/equivset.hpp:38-45 | the constructor's index vector is strictly increasing and holds exactly the set's members; id, greediness and followpos are those given |
| EquivSet.SplitIndexesContents | lib/lexertl14/lexertl/partition/equivset.hpp:91-120 | on increasing inputs the merge walk leaves in the overlap exactly the common indexes, on each side exactly its indexes not in the other, all three increasing |
| EquivSet.SplitIndexesPartitions | lib/lexertl14/lexertl/partition/equivset.hpp:91-120 | as multisets, each side's remainder plus the overlap is that side's original indexes: nothing is lost or duplicated |
| EquivSet.AddNew | lib/lexertl14/lexertl/partition/equivset.hpp:64-74 | appending the rhs followpos nodes not already present keeps the existing nodes as a prefix and ends with exactly the nodes of either list |
| EquivSet.AddNewNoDuplicates | lib/lexertl14/lexertl/partition/equivset.hpp:64-74 | starting from a duplicate-free list, the appended followpos list stays duplicate free |
| EquivSet.Intersect | lib/lexertl14/lexertl/partition/equivset.hpp:52-87 | ids and greediness of the two sides are kept; with no common index nothing but the index vectors changes; with common indexes the overlap takes the lhs id and greediness, and a side left without indexes loses its followpos |
| EquivSet.IntersectSplits | lib/lexertl14/lexertl/partition/equivset.hpp:52-87 | after `intersect` the overlap holds the common indexes and each side exactly its own indexes outside the other, all increasing |
| EquivSet.IntersectFollowposNoDuplicates | lib/lexertl14/lexertl/partition/equivset.hpp:60-74 | a non-empty overlap's followpos is the union of both sides' followpos, the lhs's first, without duplicates when the lhs had none |
| FillEntry.PrecedenceOf | lib/parsertl14/include/parsertl/generator.hpp:745-772 | a shift takes the token's precedence and associativity and a reduce its production's; anything else has precedence 0; reading a missing token or production is undefined |
| FillEntry.Resolve | lib/parsertl14/include/parsertl/generator.hpp:716-866 | a vacant slot takes the new entry silently; a slot already settled to an error stays, with a conflict; otherwise the result is defined exactly when the token and both precedences can be read; a shift/reduce with a zero precedence keeps the shift with a conflict and at equal precedence follows the token's associativity (left reduces, nonassoc becomes the non-associative error, precedence-only reports); a reduce/reduce without distinct precedences keeps the first rule with a conflict; any other pair keeps the old entry with a conflict |
| FillEntry.ResolveKeepsOrReplaces | lib/parsertl14/include/parsertl/generator.hpp:716-866 | the resolved slot holds the old entry, the new entry or a non-associative error, and is the old entry whenever it is reported unmodified |
| FillEntry.HigherPrecedenceWins | lib/parsertl14/include/parsertl/generator.hpp:789-830 | when a shift meets a reduce and both precedences are non-zero and differ, the entry of higher precedence takes the slot without a conflict |
| FillEntry.ResolveOld | lib/parsertl14/parsertl/generator.hpp:712-847 | the older `fill_entry` only reports a conflict when warnings were asked for |
| FillEntry.ResolveOldAgrees | lib/parsertl14/parsertl/generator.hpp:712-847 | the older `fill_entry` is defined exactly where the newer one is, chooses the same entry, and reports a conflict exactly when the newer one does and warnings are on |
| Fixpoints.UnsetShrinks | lib/parsertl14/include/parsertl/generator.hpp:605-613 | growing a bit set never adds unset bits, and strictly reduces them when its members change; the measure that ends every sweep loop |
| Fixpoints.NullableSweep | lib/parsertl14/include/parsertl/generator.hpp:315-342 | one sweep over the productions only sets nullable flags, and reports progress exactly when it set one |
| Fixpoints.NullableSweepStable | lib/parsertl14/include/parsertl/generator.hpp:315-342 | a sweep that reports no progress leaves flags closed under "every rhs symbol nullable makes the lhs nullable" |
| Fixpoints.NullableSweepBelow | lib/parsertl14/include/parsertl/generator.hpp:315-342 | a sweep never sets a flag outside any closed solution above its input |
| Fixpoints.Nullables | lib/parsertl14/include/parsertl/generator.hpp:308-342 | the nullable loop ends with the least set of flags closed under the nullability equations |
| Fixpoints.FirstScan | lib/parsertl14/include/parsertl/generator.hpp:351-375 | scanning one production's rhs only adds FIRST members, and reports progress exactly when it added one |
| Fixpoints.FirstScanStable | lib/parsertl14/include/parsertl/generator.hpp:351-375 | a scan without progress leaves the lhs's FIRST set containing every terminal and every FIRST member reachable through the nullable prefix |
| Fixpoints.FirstScanBelow | lib/parsertl14/include/parsertl/generator.hpp:351-375 | a scan never adds a FIRST member outside any closed solution above its input |
| Fixpoints.FirstSweep | lib/parsertl14/include/parsertl/generator.hpp:344-379 | one sweep over the productions only adds FIRST members, and reports progress exactly when it added one |
| Fixpoints.FirstSweepStable | lib/parsertl14/include/parsertl/generator.hpp:344-379 | a sweep without progress leaves every production's FIRST equation satisfied |
| Fixpoints.FirstSweepBelow | lib/parsertl14/include/parsertl/generator.hpp:344-379 | a sweep never adds a FIRST member outside any closed solution |
| Fixpoints.EmptySets | lib/parsertl14/include/parsertl/generator.hpp:308-313 | the sets start with one empty bit set per nonterminal, each as wide as the terminals |
| Fixpoints.Firsts | lib/parsertl14/include/parsertl/generator.hpp:308-380 | `build_first_sets` ends with the least FIRST sets closed under the FIRST equations |
| Fixpoints.FollowFrom | lib/parsertl14/include/parsertl/generator.hpp:392-468 | handling one nonterminal occurrence only adds FOLLOW members, and reports progress exactly when it added one |
| Fixpoints.FollowProd | lib/parsertl14/include/parsertl/generator.hpp:388-470 | handling one production only adds FOLLOW members, reporting progress exactly when it added one |
| Fixpoints.FollowSweep | lib/parsertl14/include/parsertl/generator.hpp:384-474 | one sweep over the productions only adds FOLLOW members, reporting progress exactly when it added one |
| Fixpoints.FollowFromStable | lib/parsertl14/include/parsertl/generator.hpp:392-468 | without progress, the FOLLOW set of an occurrence holds the FIRST of every symbol after it up to the first non-nullable one, and the lhs's FOLLOW when the rest is nullable |
| Fixpoints.FollowProdStable | lib/parsertl14/include/parsertl/generator.hpp:388-470 | without progress, every occurrence in the production satisfies its FOLLOW equation |
| Fixpoints.FollowSweepStable | lib/parsertl14/include/parsertl/generator.hpp:384-474 | without progress, every production satisfies the FOLLOW equations |
| Fixpoints.FollowFromBelow | lib/parsertl14/include/parsertl/generator.hpp:392-468 | handling an occurrence never adds a FOLLOW member outside any closed solution above the input |
| Fixpoints.FollowProdBelow | lib/parsertl14/include/parsertl/generator.hpp:388-470 | handling a production never adds a FOLLOW member outside any closed solution |
| Fixpoints.FollowSweepBelow | lib/parsertl14/include/parsertl/generator.hpp:384-474 | a sweep never adds a FOLLOW member outside any closed solution |
| Fixpoints.Follows | lib/parsertl14/include/parsertl/generator.hpp:382-478 | `build_follow_sets` keeps the initial FOLLOW sets and ends with the least sets above them closed under the FOLLOW equations |
| Generator.CopyRules | lib/parsertl14/include/parsertl/generator.hpp:571-603 | `copy_rules` gives the runtime one rule per production |
| Generator.CopyRulesAgree | lib/parsertl14/include/parsertl/generator.hpp:571-603 | each copied rule has its production's rhs length, the lhs's table column (terminal count plus lhs id) and each rhs symbol's column, so a reduce pops and goes to exactly what the grammar says |
| Generator.InitialFollow | lib/parsertl14/include/parsertl/generator.hpp:58-59 | before `build_follow_sets` the FOLLOW sets are empty but for end of input (terminal 0) after the new start |
| Generator.RowsReady | lib/parsertl14/include/parsertl/generator.hpp:490-569 | every state of a validated grammar's automaton meets what building its row needs |
| Generator.Lookaheads | lib/parsertl14/include/parsertl/generator.hpp:57-60 | `build_first_sets`, end of input into the new start's FOLLOW, then `build_follow_sets` give the least nullability, FIRST and FOLLOW of the rewritten grammar |
| Generator.Tables | lib/parsertl14/include/parsertl/generator.hpp:54-63 | the table stages of `build` crash when the start rule has no first production or there is no terminal and never throw; on return the automaton is the LR(0) automaton of the start rule, the lookahead sets are least solutions with end of input after the new start, and every row is the one `build_table` builds |
| Generator.TablesFrom | lib/parsertl14/include/parsertl/generator.hpp:56-63 | after `build_dfa`, `rewrite` crashes when no new start is found (`new_nt_info_[npos]`) or there are no terminals, and otherwise yields the same guarantees |
| Generator.TablesOf | lib/parsertl14/include/parsertl/generator.hpp:57-63 | after `rewrite`, the lookahead sets are least solutions and the rows are those `build_table` builds |
| Generator.TableDefined | lib/parsertl14/include/parsertl/generator.hpp:490-569 | for a validated grammar's automaton every row can be built: no undefined read |
| Generator.TableCells | lib/parsertl14/include/parsertl/generator.hpp:490-569 | in a built table a cell is a syntax error exactly when its state has no transition on the column and no completed item's lookahead holds it; otherwise it is the transition's shift or goto or a completed item's reduce, accept or non-associative error; a goto column holds its transition's goto |
| Generator.Build | lib/parsertl14/include/parsertl/generator.hpp:46-82 | on a grammar `validate()` has accepted (stated as `Validated`), the newer `build` fails exactly when the table stages fail (crashing when the initial basis is undefined), throws when there are conflicts and the caller did not ask for warnings, and otherwise returns the built rows, copied rules and captures, handing back the conflicts |
| Generator.OlderRowsAreNewer | lib/parsertl14/parsertl/generator.hpp:53-76 | the older generator builds the newer generator's rows, and reports its conflicts exactly when warnings were asked for |
| Generator.BuildOld | lib/parsertl14/parsertl/generator.hpp:53-76 | on a grammar `validate()` has accepted (stated as `Validated`), the older `build` never throws on conflicts; it returns the newer rows laid out flat with the copied rules, and the newer conflicts only when warnings were asked for |
| Grammar.Fresh | lib/parsertl14/include/parsertl/rules.hpp:86-89 | a production started at index i for an lhs has that lhs and index, no next alternative, an empty rhs, no `%prec`, precedence 0 and token associativity |
| Grammar.CStr | lib/parsertl14/include/parsertl/rules.hpp:876-880 | a string read through `c_str()` is its longest NUL-free prefix: the whole string when it has no NUL, else up to the first NUL |
| Grammar.IndexOf | lib/parsertl14/include/parsertl/rules.hpp:829-831 | the id of a registered name is a position holding that name, the first one |
| Grammar.IndexOfDistinct | lib/parsertl14/include/parsertl/rules.hpp:829-831 | in a table of distinct names, the name at position i has id i |
| Grammar.IndexOfPrefix | lib/parsertl14/include/parsertl/rules.hpp:901-913 | registering more names never moves a registered name's id |
| Grammar.Insert | lib/parsertl14/include/parsertl/rules.hpp:901-913 | `map::insert(name, size())` leaves the table alone and returns the registered id for a known name, and appends the name with the next id for a new one; the table stays distinct |
| Grammar.EnsureInfo | lib/parsertl14/include/parsertl/rules.hpp:839-847 | `info(id)` grows the token information with default entries exactly far enough for id to have one, keeping every existing entry |
| Grammar.StrLessIrreflexive | lib/parsertl14/include/parsertl/rules.hpp:41 | the `std::map` key order is irreflexive |
| Grammar.StrLessTransitive | lib/parsertl14/include/parsertl/rules.hpp:41 | the key order is transitive |
| Grammar.StrLessTotal | lib/parsertl14/include/parsertl/rules.hpp:41 | any two distinct keys are ordered |
| Grammar.Least | lib/parsertl14/include/parsertl/rules.hpp:41 | the first name in map order is registered and no registered name precedes it |
| Grammar.Links | lib/parsertl14/include/parsertl/rules.hpp:84 | the chain view of a grammar has one link per production, its lhs, index and `_next_lhs` |
| Grammar.OpenProduction | lib/parsertl14/include/parsertl/rules.hpp:922-949 | the head of `push_production` starts a fresh production at the end of the grammar, records it as the lhs's first production if it had none and as its last, and links the previous last production to it, changing no rhs or lhs |
| Grammar.OpenProductionKeepsChains | lib/parsertl14/include/parsertl/rules.hpp:937-948 | starting a production keeps every lhs's chain of alternatives exact |
| Grammar.CloseAlternativeIsOpen | lib/parsertl14/include/parsertl/rules.hpp:993-1004 | the `'\|'` case is opening the next alternative after the production being built, so it keeps the chains exact too |
| Grammar.LinksIgnoreContents | lib/parsertl14/include/parsertl/rules.hpp:80-84 | a production's rhs, precedence and `%prec` text do not affect the chains |
| Grammar.AppendToLastKeepsLinks | lib/parsertl14/include/parsertl/rules.hpp:80-84 | appending to the last production's rhs keeps the chains |
| Grammar.LinksIgnoreRhsAt | lib/parsertl14/include/parsertl/rules.hpp:80-84 | changing any production's rhs keeps the chains |
| Internals.Clear | lib/lexertl14/include/lexertl/internals.hpp:30-37 | `clear` leaves an empty state machine: both scalars zero and no lookup rows, alphabets or DFAs |
| Internals.Repeat | lib/lexertl14/include/lexertl/internals.hpp:49-50 | a lookup row is n copies of the dead state |
| Internals.AddStates | lib/lexertl14/include/lexertl/internals.hpp:44-54 | `add_states(n)` appends n DFAs, each with a 256-entry lookup row of dead states, alphabet size 0 and no transitions, changing nothing already there |
| Internals.AddStatesCompose | lib/lexertl14/include/lexertl/internals.hpp:39-54 | adding a then b states is adding a + b, and the result is empty only when it was empty and nothing was added |
| Internals.Swap | lib/lexertl14/include/lexertl/internals.hpp:56-63 | `swap` trades every field of the two machines |
| Internals.SwapInvolution | lib/lexertl14/include/lexertl/internals.hpp:56-63 | swapping twice restores both machines |
| LexerIterator.NewResults | lib/parle/lexer/iterator.hpp:35-36 | new match results over [start, end) are an empty lexeme at start, at a line start, with end as end of input |
| LexerIterator.Default | lib/parle/lexer/iterator.hpp:28-33 | the default iterator is the end iterator, with line 0 |
| LexerIterator.Lookup | lib/parle/lexer/iterator.hpp:124-172 | `lookup` counts a line exactly when the previous lexeme left the iterator at a line start, takes lexertl's next lexeme, becomes the end iterator exactly when the lexeme starts at end of input, and raises "Failed to prepare function call" or "Callback execution failed" exactly when the lexeme's id has a callback Zend cannot prepare or call |
| LexerIterator.Make | lib/parle/lexer/iterator.hpp:35-44 | the constructor starts on new results over the input and looks up once only when asked to |
| LexerIterator.SetBol | lib/parle/lexer/iterator.hpp:46-49 | `set_bol` changes the beginning-of-line flag and nothing else |
| LexerIterator.Reset | lib/parle/lexer/iterator.hpp:51-59 | `reset` throws "Can only reset to a forward position" exactly when the lexeme start would move back; otherwise it leaves an empty lexeme at the new start with the new end of input, keeping machine, line and flags |
| LexerIterator.ResetsMoveForward | lib/parle/lexer/iterator.hpp:51-59 | after any run of resets the lexeme start never went back, and a reset to before it then fails |
| LexerIterator.EqualIsEquivalence | lib/parle/lexer/iterator.hpp:106-110 | `operator==` is reflexive, symmetric and transitive; all end iterators are equal and none equals a live one |
| LexerIterator.Increment | lib/parle/lexer/iterator.hpp:82-94 | both increments look up once; prefix returns the iterator after it, postfix a copy of the one before |
| LexerIterator.RunCountsLines | lib/parle/lexer/iterator.hpp:124-129 | over k increments the line counter grows by exactly the number of lookups made at a line start, and the end iterator stays where it is |
| LexerSerialise.Render | lib/lexertl14/include/lexertl/serialise.hpp:25-28 | each element's text is its decimal writing |
| LexerSerialise.Cast | lib/lexertl14/include/lexertl/serialise.hpp:60 | `static_cast<uint16_t>` yields a value below 65536 and keeps every value that fits |
| LexerSerialise.ReadN | lib/lexertl14/include/lexertl/serialise.hpp:55-61 | reading k elements yields exactly k values, each fitting a `uint16_t` |
| LexerSerialise.InputVec | lib/lexertl14/include/lexertl/serialise.hpp:47-62 | `input_vec` appends to the vector it is given, keeping what was there |
| LexerSerialise.ReadId | lib/lexertl14/include/lexertl/serialise.hpp:116 | `stream >> x` into a `uint16_t` yields only values that fit |
| LexerSerialise.LayoutFits | lib/lexertl14/include/lexertl/serialise.hpp:25-42 | the 80-column wrapping keeps every line within 80 characters whenever every word fits a line of its own |
| LexerSerialise.ShortNumber | lib/lexertl14/include/lexertl/serialise.hpp:27 | a `uint16_t` is written in at most five digits, so it always fits a line |
| LexerSerialise.OutputVecFits | lib/lexertl14/include/lexertl/serialise.hpp:17-45 | `output_vec` of `uint16_t` values never writes an element line longer than 80 characters |
| LexerSerialise.ReadElems | lib/lexertl14/include/lexertl/serialise.hpp:25-61 | the elements read back as themselves, wherever the line breaks fell |
| LexerSerialise.InputOutputVec | lib/lexertl14/include/lexertl/serialise.hpp:17-62 | `input_vec` reads back what `output_vec` wrote, appended to what the vector held |
| LexerSerialise.ReadVecs | lib/lexertl14/include/lexertl/serialise.hpp:120-124 | reading k vectors yields exactly k |
| LexerSerialise.ReadSaveVecs | lib/lexertl14/include/lexertl/serialise.hpp:79-91 | the lookup rows and transition tables read back as themselves |
| LexerSerialise.ReadSaveCounted | lib/lexertl14/include/lexertl/serialise.hpp:77-82 | a count followed by that many vectors reads back as the vectors |
| LexerSerialise.LoadTables | lib/lexertl14/include/lexertl/serialise.hpp:116-135 | the tables read after a matching header hold `uint16_t` scalars |
| LexerSerialise.LoadInto | lib/lexertl14/include/lexertl/serialise.hpp:94-136 | a `load` that throws leaves the cleared tables and throws one of the two header mismatches; one that succeeds reads `uint16_t` scalars |
| LexerSerialise.LoadSaveTables | lib/lexertl14/include/lexertl/serialise.hpp:76-135 | the tables after the header read back as written |
| LexerSerialise.LoadSave | lib/lexertl14/include/lexertl/serialise.hpp:65-136 | loading what `save` wrote reproduces every table, whatever the target held and whatever follows in the stream |
| LexerSerialise.LoadHeaderMismatch | lib/lexertl14/include/lexertl/serialise.hpp:101-114 | a char size other than 1 throws "char_type mismatch", otherwise an id size other than 2 throws "id_type mismatch", and either way the tables are left cleared |
| Lookup.LookaheadEntry | lib/parsertl14/parsertl/lookup.hpp:30-41 | an unrecognised lexeme (id npos) is an unknown-token error; any other reads the table at the top state and the lexeme's column |
| Lookup.Step | lib/parsertl14/parsertl/lookup.hpp:16-78 | error changes nothing; shift pushes the target, moves the lexer unless the lookahead was end of input and reads the new lookahead's entry; reduce is defined exactly when the rule exists and the stack holds more than its rhs, pops the rhs and reads the goto entry on the lhs; go_to pushes and rereads the current lexeme; accept pops the accepting rule's rhs |
| Lookup.TokenStep | lib/parsertl14/parsertl/lookup.hpp:81-157 | the token-vector `lookup` records the lexeme a shift consumes, replaces a reduce's rhs tokens by one lhs token spanning them (an empty one at the current lexeme for an empty rule), and leaves the tokens alone otherwise |
| Lookup.TokenStepAgreesWithStep | lib/parsertl14/parsertl/lookup.hpp:16-157 | both overloads move the parser identically, and the token one is defined whenever the plain one is and the tokens keep pace with the stack |
| Lookup.StepKeepsBalance | lib/parsertl14/parsertl/lookup.hpp:81-157 | the stack holds one more state than the token vector has tokens, except between a reduce and its go_to, when they are equal |
| Lr0.Closure | lib/parsertl14/include/parsertl/generator.hpp:636-670 | `closure` keeps the basis as a prefix and ends with a closed item set of valid items: every item whose dot stands before a non-terminal has all of its productions at dot 0, and every added item is a production at dot 0, added once and asked for by an earlier item |
| Lr0.AddAlternatives | lib/parsertl14/include/parsertl/generator.hpp:654-666 | walking a non-terminal's `_next_lhs` chain appends exactly its missing productions at dot 0, so the item is expanded; the list only grows, and strictly shrinks what is absent unless nothing was missing |
| Lr0.Visit | lib/parsertl14/include/parsertl/generator.hpp:658-665 | one turn of the chain walk adds the production unless present and keeps the walk's invariants |
| Lr0.ChainStart | lib/parsertl14/include/parsertl/rules.hpp:31 | a non-terminal's chain starts at its first production, and there is no production of it before that or at all when it has none |
| Lr0.ChainNext | lib/parsertl14/include/parsertl/rules.hpp:84 | `_next_lhs` is the next production with the same lhs, or npos after the last one |
| Lr0.FindBasis | lib/parsertl14/include/parsertl/generator.hpp:675-690 | the search finds the first state with the given basis, and fails exactly when no state has it |
| Lr0.AddDfaState | lib/parsertl14/include/parsertl/generator.hpp:672-701 | `add_dfa_state` returns the index of a state with the basis, leaving the states alone when one exists and appending a new state with that basis otherwise |
| Lr0.AddDfaStateKeepsDistinct | lib/parsertl14/include/parsertl/generator.hpp:672-701 | adding a state keeps the bases distinct, so the returned index is the only state with that basis, and the existing states are untouched |
| Lr0.InsertItem | lib/parsertl14/include/parsertl/generator.hpp:163 | inserting into a sorted basis keeps it sorted and adds exactly that item |
| Lr0.SortItems | lib/parsertl14/include/parsertl/generator.hpp:163 | `std::sort` of a basis gives the same items, ordered as pairs |
| Lr0.Successors | lib/parsertl14/include/parsertl/generator.hpp:121-155 | the grouping loop lists each column some closure item can shift, in order of first appearance, once, and under it exactly the advanced items for that column, each once |
| Lr0.Group | lib/parsertl14/include/parsertl/generator.hpp:123-154 | one turn of the grouping loop extends the grouping to one more closure item |
| Lr0.GroupStep | lib/parsertl14/include/parsertl/generator.hpp:123-154 | scanning one more item adds exactly its column to the shiftable columns and its advanced item to that column's goto set |
| Lr0.InitialBasis | lib/parsertl14/include/parsertl/generator.hpp:91-106 | state 0's kernel is the start rule's first production at dot 0, or production 0 when no start is set; a missing production is undefined |
| Lr0.StateOkGrows | lib/parsertl14/include/parsertl/generator.hpp:110-167 | a finished state stays finished as later states are appended |
| Lr0.BuildDfa | lib/parsertl14/include/parsertl/generator.hpp:84-168 | `build_dfa` crashes when the initial kernel is missing; when it returns, state 0 has the initial kernel and every state is finished: its closure is the closure of its basis, with one transition per shiftable column, to the unique state whose basis is the sorted goto set |
| Lr0.ProcessState | lib/parsertl14/include/parsertl/generator.hpp:111-166 | one turn of the state loop only appends states, keeps bases distinct and valid, changes no other state, and finishes state s |
| Lr0.TransitionStep | lib/parsertl14/include/parsertl/generator.hpp:156-165 | recording the transition for one more column only appends states, keeps bases distinct and valid, changes no other state, and keeps every earlier transition pointing at a state with its column's kernel |
| Lr0.AddTransition | lib/parsertl14/include/parsertl/generator.hpp:160-165 | the transition loop's body appends one transition on the column, to a state whose basis is the goto set |
| Lr0.AddTransitionKeeps | lib/parsertl14/include/parsertl/generator.hpp:157-166 | adding a transition only appends states, keeps bases distinct and valid, and changes no other state |
| Lr0.SuccessorBasisOk | lib/parsertl14/include/parsertl/generator.hpp:161-163 | the sorted goto set for a column is a valid kernel |
| Lr0.FinishState | lib/parsertl14/include/parsertl/generator.hpp:157-166 | once every shiftable column has its transition the state is finished |
| Match.Start | lib/parsertl14/include/parsertl/match.hpp:19 | `match` starts on the first lexeme with the stack holding state 0 and that lexeme as lookahead |
| Match.MatchPlain | lib/parsertl14/include/parsertl/match.hpp:16-22 | the plain `match` returns exactly when `parse` from the first lexeme does, and is true exactly when that parse ends at accept |
| Match.DollarSpans | lib/parsertl14/include/parsertl/match.hpp:48-58 | reading the capture pairs with `dollar` keeps the number of slots and slot 0 |
| Match.DollarSpansAreRhsSpans | lib/parsertl14/include/parsertl/match.hpp:48-58 | the spans read with `dollar` are the spans of the rule's rhs tokens on top of the token vector, as the `search` capture loop builds them |
| Match.ReduceSpans | lib/parsertl14/include/parsertl/match.hpp:40-60 | a reduce keeps the slot count and slot 0; a rule with no capture row is undefined as written and adds nothing when guarded |
| Match.CaptureLoop | lib/parsertl14/include/parsertl/match.hpp:37-63 | the capture loop never throws, stops only at error or accept, and keeps the slot count and slot 0 |
| Match.SlotTotal | lib/parsertl14/include/parsertl/match.hpp:33-34 | the slot count read from `_captures.back()` is defined exactly when the grammar has captures (or the read is guarded), and is one more than the capture pairs |
| Match.MatchWith | lib/parsertl14/include/parsertl/match.hpp:24-66 | the captures form never throws; it returns one slot per capture pair plus slot 0, which holds the seed span |
| Match.MatchCapturesAsWritten | lib/parsertl14/include/parsertl/match.hpp:24-66 | the captures form as written never throws |
| Match.MatchCaptures | lib/parsertl14/include/parsertl/match.hpp:24-66 | the corrected captures form returns one slot per capture pair plus slot 0, which holds the first lexeme's span |
| Match.MatchCapturesOld | lib/parsertl14/parsertl/match.hpp:28-75 | the older captures form (corrected the same way) returns one slot per pair plus slot 0, which holds the whole input range |
| Match.MatchCapturesOldAsWritten | lib/parsertl14/parsertl/match.hpp:40-43 | the older captures form as written crashes when the grammar has no captures |
| Match.OldAsWrittenAgreesWhenDefined | lib/parsertl14/parsertl/match.hpp:28-75 | where the older form as written returns, the corrected one returns the same |
| Match.NoCaptureRowsCrashes | lib/parsertl14/include/parsertl/match.hpp:33-34 | as written, `match` with captures is undefined for every grammar without capture pairs, whatever the input |
| Match.AsWrittenAgreesWhenDefined | lib/parsertl14/include/parsertl/match.hpp:24-66 | wherever the newest form as written returns, the corrected one returns the same |
| Match.LoopGuardIrrelevant | lib/parsertl14/include/parsertl/match.hpp:42 | guarding the capture row read only matters where the unguarded loop is undefined |
| Match.CaptureLoopIsRun | lib/parsertl14/include/parsertl/match.hpp:37-63 | the capture loop moves the parser exactly as repeated `lookup` does |
| Match.MatchCapturesAgreesWithParse | lib/parsertl14/include/parsertl/match.hpp:16-66 | with a generated table, `match` with captures accepts exactly when the plain `parse` from the same start does |
| MatchResults.Clear | lib/parsertl14/parsertl/match_results.hpp:32-38 | `clear` leaves the stack holding state 0, lookahead npos and a syntax-error entry, whatever the state was |
| MatchResults.Reset | lib/parsertl14/parsertl/match_results.hpp:40-55 | `reset` restarts at state 0 with the given lookahead; npos is an immediate unknown-token error, any other id reads state 0's table cell |
| MatchResults.ReduceId | lib/parsertl14/parsertl/match_results.hpp:57-65 | `reduce_id` is the rule being reduced by, and throws "Not in a reduce state!" exactly outside a reduce |
| MatchResults.ProductionSize | lib/parsertl14/parsertl/match_results.hpp:93-97 | `production_size` is the rule's rhs length, defined exactly for existing rules |
| MatchResults.Dollar | lib/parsertl14/parsertl/match_results.hpp:67-91 | `dollar(i)` throws outside a reduce; in one it is defined exactly when i is within the rule's rhs and the token vector holds that many tokens, and is the token that far into the rhs tokens on top |
| MatchResults.DollarReadsRhs | lib/parsertl14/parsertl/match_results.hpp:67-91 | while reducing, `$i` is the i-th of the rhs tokens on top of the token vector |
| Parle.New | parle.cpp:1497-1514 | a newly created lexer or parser object is not complete and holds the rules and machine it was given |
| Parle.Edit | parle.cpp:146-172 | a rule-editing method refuses with "… is readonly" once the object is complete; otherwise the rules call decides, and when it throws its message becomes the exception and the rules stay as they were |
| Parle.Build | parle.cpp:219-243 | `build` refuses with "… is readonly" once complete; otherwise the generator runs and the object becomes complete even when the generator throws, with the generator's machine and exception |
| Parle.NeedReady | parle.cpp:272-275 | a method that needs the machine refuses with "… is not ready" exactly when the object is not complete |
| Parle.RunCompletesAtFirstBuild | parle.cpp:219-243 | from any object, a run of calls leaves it complete exactly when it was or the run contained a `build`; once complete, no call changes it again |
| Parle.Push | parle.cpp:1206-1223 | `push` adds one value and leaves the stack non-empty |
| Parle.Pop | parle.cpp:1181-1203 | `pop` on an empty stack does nothing; otherwise it drops exactly the top value |
| Parle.Top | parle.cpp:1242-1278 | `top()` is NULL exactly on an empty stack, and otherwise the top value |
| Parle.SetTop | parle.cpp:1253-1270 | `top($v)` makes v the top, replacing the old top or pushing onto an empty stack, and leaves what lies below alone |
| Parle.PushPop | parle.cpp:1181-1223 | a pushed value is the top, and popping it restores the stack |
| Parle.PopsReverse | parle.cpp:1181-1278 | values pushed in turn sit on top of the stack in order and come off with `top`/`pop` in reverse order, leaving the original stack |
| ParleLexer.NewLexer | parle.cpp:1497-1514 | a new lexer object is not built and has no input and no results |
| ParleLexer.Push | parle.cpp:146-172 | `push` edits the rules exactly as the builder rule says and leaves input and results alone |
| ParleLexer.BuildLexer | parle.cpp:219-251 | `build` builds exactly as the builder rule says and leaves input and results alone |
| ParleLexer.Consume | parle.cpp:259-290 | `consume` refuses with "Lexer state machine is not ready" before `build`; after it, the input is the string up to its first NUL and the results start over at its beginning |
| ParleLexer.GetToken | parle.cpp:349-380 | `getToken` throws "No results available" exactly when nothing was consumed, and otherwise returns the lexeme's id, its text from the input and its offset |
| ParleLexer.BolAsWritten | parle.cpp:434-457 | as written, `bol($b)` answers the old flag and ignores b, and `bol()` stores an uninitialised value (undefined); without results both throw "No results available" |
| ParleLexer.Bol | parle.cpp:434-457 | corrected, `bol()` answers the beginning-of-line flag and `bol($b)` sets it, returning NULL and changing nothing else; without results both throw "No results available" |
| ParleLexer.BolAsWrittenSwapped | parle.cpp:434-457 | setting the flag to its opposite leaves it unchanged as written but changes it corrected; reading it without an argument is undefined as written and answers the flag corrected |
| ParleLexer.ShowInt | parle.cpp:490 | a PHP integer prints as its decimal digits, with a minus sign when negative |
| ParleLexer.Restart | parle.cpp:473-495 | `restart` throws "No results available" without results and "Invalid offset <pos>" for a position outside [0, input length]; otherwise it moves both ends of the lexeme to pos and changes nothing else |
| ParleLexer.RestartThenToken | parle.cpp:349-495 | after a successful `restart(pos)` the current token is an empty lexeme at pos |
| ParleLexer.AdvanceAsWritten | parle.cpp:396-418 | as written, `advance` refuses before `build`, and after it is undefined exactly when nothing was consumed; otherwise it takes lexertl's next lexeme |
| ParleLexer.AdvanceAsWrittenCrashes | parle.cpp:396-418 | building and then advancing without `consume` is undefined |
| ParleLexer.Advance | parle.cpp:396-418 | corrected, `advance` throws "No results available" when nothing was consumed and otherwise does what the code as written does |
| ParleLexer.AdvanceAgrees | parle.cpp:396-418 | the corrected `advance` agrees with the original wherever that is defined, and keeps the results within the input when lexertl's lookup does |
| ParleParser.NewParser | parle.cpp:1560-1575 | a new parser object is not built, has an empty machine and no session |
| ParleParser.EditRules | parle.cpp:623-805 | `token`, `left`, `right`, `precedence`, `nonassoc` and `push` edit the rules as the builder rule says and leave the session alone |
| ParleParser.BuildParser | parle.cpp:754-779 | `build` builds as the builder rule says and leaves the session alone |
| ParleParser.NeedBothReady | parle.cpp:821-828 | `validate` and `consume` refuse with "Parser state machine is not ready" before the parser is built, then with "Lexer state machine is not ready" before the lexer is |
| ParleParser.Consume | parle.cpp:988-1032 | `consume` refuses unless both are built; otherwise the session's input is the string up to its first NUL, lexed from its start, with an empty token vector and results reset on the first lexeme |
| ParleParser.NeedSession | parle.cpp:971-977 | methods that read the session refuse with "Parser state machine is not ready" before `build`, then with "No results available" before `consume` |
| ParleParser.Advance | parle.cpp:960-985 | `advance` refuses as the session guard says; otherwise it is one token-vector `lookup` step, defined exactly when that step is |
| ParleParser.ReduceIdOf | parle.cpp:867-892 | `reduceId` refuses as the session guard says; otherwise it is `reduce_id` of the session's results |
| ParleParser.ActionOf | parle.cpp:895-920 | `action` refuses as the session guard says; otherwise it is the current action's code, below 5, which decodes back to the action |
| ParleParser.TextOf | parle.cpp:950-952 | a token's text is defined exactly when it lies within the input, and is the input between its ends |
| ParleParser.SigilAsWritten | parle.cpp:923-957 | as written, `sigil` refuses as the session guard says and throws "Invalid index" exactly for an index outside the whole token vector |
| ParleParser.SigilText | parle.cpp:948-955 | `dollar` throws "Not in a reduce state!" outside a reduce |
| ParleParser.SigilAsWrittenReadsPastEnd | parle.cpp:943-952 | reducing by a one-symbol rule with three tokens on the vector, `sigil(2)` passes the index guard and reads past the end of the vector |
| ParleParser.Sigil | parle.cpp:923-957 | corrected, `sigil` also throws "Invalid index" for an index at or past the reduced rule's rhs length |
| ParleParser.SigilChecked | parle.cpp:923-957 | the corrected `sigil` is always defined on a consistent session, returns the text of the idx-th rhs token, and agrees with the original for every index within the rule |
| ParleParser.Trace | parle.cpp:1061-1119 | `trace` refuses as the session guard says; otherwise it is "shift n", "goto n", "accept", nothing for an error, or "reduce by" the rule, defined for a reduce exactly when the rule and its symbols' names exist |
| ParleParser.RhsText | parle.cpp:1103-1110 | a rule's rhs is written ` %empty` when empty, else each symbol's name after a space |
| ParleParser.TraceIdentifiesStep | parle.cpp:1082-1093 | two traces of shifts, gotos or accepts are equal only for the same action, and for a shift or goto the same target state |
| ParleParser.ErrorInfoOf | parle.cpp:1122-1162 | `errorInfo` throws "No results available" without a session, is empty outside an error, and in one holds the error code, with the offending token exactly for an unknown token |
| ParleParser.Validate | parle.cpp:807-842 | `validate` refuses unless both are built, and is true only when a fresh parse of the input reaches accept; the object is not changed |
| ParleParser.UnbuiltRefuses | parle.cpp:867-1119 | before `build`, `consume`, `advance`, `reduceId`, `action`, `sigil` and `trace` all refuse with "Parser state machine is not ready" |
| Parse.LoopBody | lib/parsertl14/parsertl/parse.hpp:19-70 | one pass of the loop never moves the lexer past end of input, leaves a non-empty stack unless it stopped on error or accept, and on a shift pushes the state, advances exactly when the lexeme is not end of input, and reports an unknown token as an error |
| Parse.Parse | lib/parsertl14/parsertl/parse.hpp:14-87 | `parse` either returns or crashes on a malformed machine; it never throws |
| Parse.ParseStopsAtErrorOrAccept | lib/parsertl14/parsertl/parse.hpp:19-86 | `parse` stops only on error or accept, and returns true exactly when it stopped on accept |
| Parse.ParseNeverPassesEoi | lib/parsertl14/parsertl/parse.hpp:26-27 | over a whole parse the lexer only moves forward and never past the end-of-input lexeme |
| Parse.ParseFuelMonotone | lib/parsertl14/parsertl/parse.hpp:19-84 | once the loop has finished within some number of passes, allowing more passes gives the same outcome |
| Parse.LoopBodyIsLookup | lib/parsertl14/parsertl/parse.hpp:21-65 | while the lookahead is the current lexeme, a pass of `parse` does exactly what one `lookup` step does |
| ParseStr.KeyOf | bench/parse_str.impl.php:99 | a string used as an array key becomes an integer key exactly when it is canonical integer text in the PHP integer range, and then that integer; otherwise it stays the same string |
| ParseStr.KeyOfShown | bench/parse_str.impl.php:99 | every PHP integer, printed in decimal, is read back as the same integer key |
| ParseStr.Find | bench/parse_str.impl.php:129 | looking a key up finds nothing exactly when no entry has that key, and otherwise a value stored under it |
| ParseStr.Assign | bench/parse_str.impl.php:99 | assigning keeps the key order, adding the key at the end when it is new |
| ParseStr.AssignThenFind | bench/parse_str.impl.php:99 | after assigning v under k, k finds v and every other key finds what it found before |
| ParseStr.AssignKeepsUnique | bench/parse_str.impl.php:99 | assigning keeps keys distinct |
| ParseStr.AssignFrame | bench/parse_str.impl.php:99 | after assigning v under k, k finds v and no other key changes, for all other keys at once |
| ParseStr.Single | bench/parse_str.impl.php:108-114 | `$tmp[$k] = v` or `$tmp[] = v` builds a one-entry array holding v, at key 0 for a falsy key and at the key's normalised form otherwise |
| ParseStr.FalsyOnlyForNull | bench/parse_str.impl.php:110-114 | for a non-empty string key the falsy test changes nothing; only NULL is steered into the append slot, where it would otherwise be the key "" |
| ParseStr.TopKey | bench/parse_str.impl.php:108 | the stack's `top` is NULL on an empty stack and the last pushed key otherwise |
| ParseStr.EmptyDimensionKey | bench/parse_str.impl.php:85-88 | `handleEmptyDimensionKey` pushes NULL on the key stack and leaves the result alone |
| ParseStr.DimensionKey | bench/parse_str.impl.php:90-93 | `handleDimensionKey` pushes the key's text on the key stack and leaves the result alone |
| ParseStr.Scalar | bench/parse_str.impl.php:95-100 | `handleScalar` stores the decoded value under the name's key and changes no other key or the key stack |
| ParseStr.PathSnoc | bench/parse_str.impl.php:118-128 | in the nesting of a key list, the key pushed last wraps the value directly |
| ParseStr.Merge | bench/parse_str.impl.php:129-132 | the merge into `result[name]` (an empty array when missing) fails exactly when `array_merge_recursive` does; otherwise it stores the merged value there, changes no other key and empties the key stack |
| ParseStr.HandleArray | bench/parse_str.impl.php:102-133 | `handleArray`'s pop loop builds the nesting of every key on the stack, first pushed outermost, merges it into the result and leaves the stack empty |
| ParseStr.TwoLevels | bench/parse_str.impl.php:102-133 | the keys x then y pushed give `[x => [y => v]]` |
| ParseStr.AssocOf | bench/parse_str.impl.php:53-68 | `terminal` knows exactly the words left, right, token and nonassoc |
| ParseStr.Terminal | bench/parse_str.impl.php:51-75 | `terminal` throws "Unknown associativity '…'." exactly for another word; otherwise it declares the token, pushes its regex under the token's id, records name and id both ways without changing other entries, and touches neither productions nor handlers |
| ParseStr.Production | bench/parse_str.impl.php:77-83 | `production` pushes the rule and files the handler under the rule's id only when one is given; other handlers and the token tables stay |
| ParseStr.TerminalsKnown | bench/parse_str.impl.php:29-33 | every terminal `init` declares uses an associativity word `terminal` knows |
| ParseStr.DeclareTerminalsOk | bench/parse_str.impl.php:29-33 | terminals with known words all declare, pushing one lexer rule each and no handler |
| ParseStr.PushProductionsFiles | bench/parse_str.impl.php:35-45 | pushing productions files their handlers, later ones overwriting earlier, and pushes no lexer rule |
| ParseStr.InitTables | bench/parse_str.impl.php:27-49 | `init` does not throw, pushes one lexer rule per terminal and leaves exactly the four handler productions with their handlers, once the parser numbers them apart |
| ParseStr.FiledProductions | bench/parse_str.impl.php:35-45 | the handlers `init` files are exactly the four handler productions with their handlers |
| ParseStr.FiledSkips | bench/parse_str.impl.php:35-45 | productions without a handler do not change what is filed |
| ParseStr.Sigil | bench/parse_str.impl.php:92-105 | the handlers' `sigil(k)`, with the rule-length bound of the corrected `ParleParser.Sigil`: it succeeds exactly for k below the reduced rule's length, with the k-th text, and otherwise throws "Invalid index" |
| ParseStr.OnReduce | bench/parse_str.impl.php:161-171 | a reduce calls the production's handler when one is filed, and otherwise changes nothing; each handler reads the sigils it needs and throws when one is missing |
| ParseStr.NonAssociativeRunsTogether | bench/parse_str.impl.php:149-150 | as written, the message glues the token name to "is": split on spaces it reads "Token", name + "is", "not", "associative", and it differs from the intended message for every name |
| ParseStr.NonAssociativeWords | bench/parse_str.impl.php:149-150 | corrected, the message split on spaces reads "Token", the name, "is", "not", "associative" |
| ParseStr.JoinTail | bench/parse_str.impl.php:150 | joining one more word in front adds it and a space |
| ParseStr.Run | bench/parse_str.impl.php:142-176 | the loop never crashes: it returns, throws or has not finished |
| ParseStr.RunSplits | bench/parse_str.impl.php:142-174 | the loop over shifts, gotos and reduces followed by more actions goes on from the state they leave, or throws what a handler threw |
| ParseStr.ParseEnds | bench/parse_str.impl.php:135-177 | `parse` returns the result the handlers built by the first accept, and throws the first error's message, unless a handler threw before; a non-associative token throws the message as written, with no space before "is" |
| ParseStr.ReturnsOnlyAfterAccept | bench/parse_str.impl.php:142-176 | a returned result means an accept came before any error |
| ParseStr.ScalarPair | bench/parse_str.impl.php:95-100 | `a=1` decodes to `[a => decode("1")]` |
| ParseStr.ArrayPair | bench/parse_str.impl.php:102-133 | `a[x]=1` decodes to `[a => [x => decode("1")]]` |
| ParserIterator.StepPastMoves | lib/parsertl14/include/parsertl/iterator.hpp:105-112 | the private `lookup` loop never throws, and when it finishes it stands on neither a shift nor a goto |
| ParserIterator.StepPastMovesIsFirstPause | lib/parsertl14/include/parsertl/iterator.hpp:105-112 | the loop stops at the first step, at least one in, that is not a shift or goto |
| ParserIterator.Advance | lib/parsertl14/include/parsertl/iterator.hpp:63-67 | `++` on the end iterator crashes; otherwise the result is the end iterator exactly when it stopped on accept or error, and else stands on a reduce with the same machine |
| ParserIterator.Make | lib/parsertl14/include/parsertl/iterator.hpp:34-56 | the constructor starts the results from the first lexeme and stops there when the first action is a reduce, and otherwise advances |
| ParserIterator.MakeStopsAtReduce | lib/parsertl14/include/parsertl/iterator.hpp:34-56 | a new iterator either stands on a reduce with the machine, or is the end iterator after accept or error |
| ParserIterator.AdvanceReachesFirstPause | lib/parsertl14/include/parsertl/iterator.hpp:63-67 | `++` lands on the first configuration, one step or more ahead, that is not a shift or goto |
| ParserIterator.PostIncrement | lib/parsertl14/include/parsertl/iterator.hpp:69-75 | `it++` returns the iterator as it was and advances it as `++` does |
| ParserIterator.EqualIsEquivalence | lib/parsertl14/include/parsertl/iterator.hpp:87-97 | iterator equality is an equivalence; all end iterators are equal, an end iterator equals no other, and two others are equal exactly when machine and results are |
| ParserSerialise.ActionCode | lib/parsertl14/include/parsertl/enums.hpp:12-19 | an action is written as its position in the enumeration, below 5 |
| ParserSerialise.DecodeAction | lib/parsertl14/include/parsertl/serialise.hpp:137 | a code decodes exactly when it is below 5, to the action written as that code |
| ParserSerialise.DecodeActionCode | lib/parsertl14/include/parsertl/serialise.hpp:53-137 | every action decodes back from its code |
| ParserSerialise.ReadMany | lib/parsertl14/include/parsertl/serialise.hpp:91-141 | reading k items yields exactly k items |
| ParserSerialise.ReadManyStep | lib/parsertl14/include/parsertl/serialise.hpp:91-141 | reading k items is reading one item and then k-1 more |
| ParserSerialise.ReadSaveMany | lib/parsertl14/include/parsertl/serialise.hpp:25-141 | items written one after another are read back in full when each item reads back what was written for it |
| ParserSerialise.ReadSaveCounted | lib/parsertl14/include/parsertl/serialise.hpp:23-141 | a list written after its size is read back in full, whatever follows |
| ParserSerialise.ReadCountedSkipsSpace | lib/parsertl14/include/parsertl/serialise.hpp:75-88 | leading white space before a counted list is ignored |
| ParserSerialise.ReadSaveRule | lib/parsertl14/include/parsertl/serialise.hpp:25-29 | a rule written as its lhs and its rhs vector reads back as the same rule when its ids fit 16 bits |
| ParserSerialise.ReadSavePair | lib/parsertl14/include/parsertl/serialise.hpp:40 | a capture pair written as two numbers reads back as the same pair when both fit 16 bits |
| ParserSerialise.ReadSaveCapture | lib/parsertl14/include/parsertl/serialise.hpp:33-42 | a capture row, its first slot then its counted pairs, reads back as the same row |
| ParserSerialise.ReadSaveCell | lib/parsertl14/include/parsertl/serialise.hpp:50-55 | a table cell written as column, action code and param reads back as the same cell |
| ParserSerialise.ReadSaveRow | lib/parsertl14/include/parsertl/serialise.hpp:46-56 | a table row written after its size reads back as the same row |
| ParserSerialise.LoadInto | lib/parsertl14/include/parsertl/serialise.hpp:59-71 | when `load` throws, it throws "id_type mismatch in parsertl::load()" and leaves the machine cleared |
| ParserSerialise.LoadBodySteps | lib/parsertl14/include/parsertl/serialise.hpp:73-141 | after the header `load` reads columns, rows, rules, capture rows and table in that order |
| ParserSerialise.LoadSaveBody | lib/parsertl14/include/parsertl/serialise.hpp:21-141 | the body `save` writes loads back as the same machine |
| ParserSerialise.LoadBodySkipsSpace | lib/parsertl14/include/parsertl/serialise.hpp:73 | leading white space before the body is ignored |
| ParserSerialise.LoadSave | lib/parsertl14/include/parsertl/serialise.hpp:15-142 | loading what `save` wrote gives back the same columns, rows, rules, capture rows and table, whatever the machine held before and whatever follows |
| ParserSerialise.LoadIdMismatch | lib/parsertl14/include/parsertl/serialise.hpp:64-71 | a stored id size other than 2 throws and leaves the machine cleared, whatever the version says |
| ParserStateMachine.Clear | lib/parsertl14/parsertl/state_machine.hpp:58-68 | `clear` leaves an empty machine, with zero columns and rows and no rules or captures |
| ParserStateMachine.FindCell | lib/parsertl14/include/parsertl/serialise.hpp:44-56 | a compressed row has a cell for a column exactly when some stored cell carries that column, and then it is that cell's entry |
| ParserStateMachine.At | lib/parsertl14/parsertl/state_machine.hpp:18-27 | reading a cell that is not stored, or a row past the table, yields the default entry, a syntax error |
| ProductionChains.Grow | lib/parsertl14/include/parsertl/rules.hpp:1124-1131 | `location(id)` grows the table just far enough to hold id, keeping the old entries and adding empty ones |
| ProductionChains.GrowKeepsChains | lib/parsertl14/include/parsertl/rules.hpp:1124-1131 | growing the location table keeps every chain exact |
| ProductionChains.OpenKeepsChains | lib/parsertl14/include/parsertl/rules.hpp:925-949 | adding a production keeps every chain exact: following first and the next links still visits exactly the productions of each non-terminal, in order |
| ProductionChains.FirstMissing | lib/parsertl14/include/parsertl/rules.hpp:708-722 | the search finds no non-terminal without productions exactly when every one has a first production, and otherwise the lowest such id |
| ReTokeniserState.Make | lib/lexertl14/include/lexertl/parser/tokeniser/re_tokeniser_state.hpp:34-50 | the constructor puts the cursor at the start of the pattern, with no open parentheses, outside a string, an empty flags stack and the all-ones newline id of the id type |
| ReTokeniserState.Increment | lib/lexertl14/include/lexertl/parser/tokeniser/re_tokeniser_state.hpp:67-75 | `increment` moves the cursor's index on by one over the same pattern |
| ReTokeniserState.Next | lib/lexertl14/include/lexertl/parser/tokeniser/re_tokeniser_state.hpp:52-65 | `next` reports the end exactly at or past the end of the pattern, yielding NUL and staying put; otherwise it yields the character under the cursor and steps over it |
| ReTokeniserState.ReadAll | lib/lexertl14/include/lexertl/parser/tokeniser/re_tokeniser_state.hpp:52-80 | calling `next` until it reports the end reads exactly the rest of the pattern and leaves the cursor at its end (`eos`) |
| ReTokeniserState.NextReadsInOrder | lib/lexertl14/include/lexertl/parser/tokeniser/re_tokeniser_state.hpp:52-70 | k reads that stay within the pattern move the cursor by k and change nothing else |
| ReTokeniserState.NextAtEndStays | lib/lexertl14/include/lexertl/parser/tokeniser/re_tokeniser_state.hpp:54-58 | once at the end, any number of further `next` calls changes nothing |
| ReTokeniserState.ErrorSuffix | lib/lexertl14/include/lexertl/parser/tokeniser/re_tokeniser_state.hpp:87-101 | `error` writes " in MACRO 'name'." when the pattern came from a macro, and " in rule id n." with the rule id in decimal otherwise |
| ReTokeniserState.ErrorSuffixIdentifiesRule | lib/lexertl14/include/lexertl/parser/tokeniser/re_tokeniser_state.hpp:97-100 | two rule-id messages are equal only for the same rule id |
| Replace.ReplaceInto | lib/lexertl14/include/lexertl/replace.hpp:25-51 | the iterator overload writes the text with every recognised lexeme replaced by the format read up to its NUL, the text between lexemes and after the last one copied through |
| Replace.Splice | lib/lexertl14/include/lexertl/replace.hpp:38-50 | the lookup loop emits, for each lexeme until end of input, the gap before it and the format, then the gap before end of input |
| Replace.ReplaceStep | lib/lexertl14/include/lexertl/replace.hpp:41-47 | one turn of the loop: a recognised lexeme lies after the previous one within the text, and emits its gap and the format before the next lookup starts after it |
| Replace.OverloadsAgree | lib/lexertl14/include/lexertl/replace.hpp:15-120 | the string and C-string overloads produce the text the iterator overload writes, the C-string subject when it holds no NUL |
| Replace.ReplaceLength | lib/lexertl14/include/lexertl/replace.hpp:41-49 | the output is as long as the text up to the end-of-input lookup, less what the lexemes covered, plus one format per lexeme |
| Replace.ReplaceNothing | lib/lexertl14/include/lexertl/replace.hpp:39-49 | when the first lookup is end of input, the output is the text before it |
| Replace.ReplaceWithoutLexemes | lib/lexertl14/include/lexertl/replace.hpp:39-49 | a text with no lexemes, end of input at its end, comes out unchanged |
| Rewrite.KeyId | lib/parsertl14/include/parsertl/generator.hpp:224-240 | a key of the trie map gets its insertion position: its old id when present, else the next id with the key appended; earlier keys keep their ids |
| Rewrite.Find | lib/parsertl14/include/parsertl/generator.hpp:225 | a present key is found at its first occurrence |
| Rewrite.Target | lib/parsertl14/include/parsertl/generator.hpp:209-221 | the transition search finds a target exactly when some transition is on the symbol, and then one of them |
| Rewrite.Over | lib/parsertl14/include/parsertl/generator.hpp:257-272 | following a symbol from a state, or staying put without a transition, stays within the automaton |
| Rewrite.RenameStep | lib/parsertl14/include/parsertl/generator.hpp:253-294 | one rhs symbol is taken from its state to the next, a non-terminal renamed to the key for that pair of states |
| Rewrite.RhsWalk | lib/parsertl14/include/parsertl/generator.hpp:242-295 | the rhs walk renames the rhs, records for each symbol the states before and after it as a connected path through the automaton from the starting state, and only adds keys |
| Rewrite.WalkJoin | lib/parsertl14/include/parsertl/generator.hpp:249-295 | a first rhs step followed by the walk of the rest is the walk of the whole rhs |
| Rewrite.RewriteItem | lib/parsertl14/include/parsertl/generator.hpp:193-298 | an item at dot 0 becomes a new production that renames its original one, starts in that state, and gets a new lhs id exactly when its lhs key is new |
| Rewrite.DotZero | lib/parsertl14/include/parsertl/generator.hpp:190-195 | every item at dot 0 in the closure is among those the loop takes |
| Rewrite.ProductionsAppend | lib/parsertl14/include/parsertl/generator.hpp:297-298 | the originals behind new productions appended in turn are appended in turn |
| Rewrite.RewriteClosure | lib/parsertl14/include/parsertl/generator.hpp:190-299 | a state's closure gives one renamed production per item at dot 0, in closure order, with a valid new start |
| Rewrite.RewriteStates | lib/parsertl14/include/parsertl/generator.hpp:185-300 | the states from s on give one renamed production per item at dot 0, state by state, with a valid new start |
| Rewrite.Rewrite | lib/parsertl14/include/parsertl/generator.hpp:170-304 | `rewrite` builds one new production for each item at dot 0, state by state, each renaming its original one; the new start is the id of the start rule's key, and no value when there is none |
| Rules.Id | lib/parsertl14/include/parsertl/rules.hpp:901-913 | a symbol id is its registration position cut to 16 bits, below 2^16 and equal to the position while that is small enough |
| Rules.New | lib/parsertl14/include/parsertl/rules.hpp:126-163 | a new registry satisfies the registry invariant and holds only `$`, as terminal 0 with default information, precedence level 1, no non-terminals, productions, start or captures |
| Rules.Clear | lib/parsertl14/include/parsertl/rules.hpp:165-184 | `clear()` gives back exactly a freshly constructed registry with flags 0 |
| Rules.InsertTerminal | lib/parsertl14/include/parsertl/rules.hpp:901-906 | `insert_terminal` registers the name if new and returns its id, changing nothing else |
| Rules.WithId | lib/parsertl14/include/parsertl/rules.hpp:549-563 | the names a table gives an id are exactly those registered at a position with that id |
| Rules.NameFromId | lib/parsertl14/include/parsertl/rules.hpp:549-579 | the name found for an id is empty or a name registered with that id |
| Rules.WithIdSmall | lib/parsertl14/include/parsertl/rules.hpp:549-579 | while there are at most 2^16 names, exactly one name has an id below the count and none has a larger one |
| Rules.NameFromIdInverse | lib/parsertl14/include/parsertl/rules.hpp:549-579 | with at most 2^16 names the lookup inverts the numbering: an id below the count names the name at that position, any other id the empty string |
| Rules.TokenId | lib/parsertl14/include/parsertl/rules.hpp:532-547 | `token_id` succeeds exactly for a registered terminal, with its id, and otherwise throws `Unknown token "name".` |
| Rules.SetInfo | lib/parsertl14/include/parsertl/rules.hpp:839-846 | registering a terminal and giving it information makes the information its own and changes only the terminals and their information |
| Rules.Declare | lib/parsertl14/include/parsertl/rules.hpp:849-874 | a token directive throws "Unrecognised char in func()." exactly when some name is not a token; otherwise it only adds terminals and changes their information |
| Rules.DeclareLevel | lib/parsertl14/include/parsertl/rules.hpp:206-276 | `left`, `right`, `nonassoc` and `precedence` use up one precedence level |
| Rules.SetInfoKeepsOthers | lib/parsertl14/include/parsertl/rules.hpp:839-874 | giving one terminal information leaves every other terminal's information alone, while ids do not wrap |
| Rules.DeclareSetsInfo | lib/parsertl14/include/parsertl/rules.hpp:849-874 | after a directive every token it names is a terminal with the directive's information, names stay distinct, and every other terminal keeps its own |
| Rules.DeclareKeepsDistinct | lib/parsertl14/include/parsertl/rules.hpp:849-874 | a directive keeps the terminal names distinct and adds at most one terminal per name it lists |
| Rules.DeclareSetsNamed | lib/parsertl14/include/parsertl/rules.hpp:849-874 | every name a directive lists ends up a terminal carrying the directive's precedence and associativity, a later listing of the same name included |
| Rules.DeclareKeepsOthers | lib/parsertl14/include/parsertl/rules.hpp:849-874 | a terminal the directive does not list keeps its precedence and associativity |
| Rules.SetStart | lib/parsertl14/include/parsertl/rules.hpp:581-591 | `start(name)` sets the start exactly for a valid name and otherwise throws "Invalid name '…'." |
| Rules.StartId | lib/parsertl14/include/parsertl/rules.hpp:593-598 | `start()` is npos without a start, is defined exactly when the start is a registered non-terminal, and then names it back |
| Rules.ResizeCaptures | lib/parsertl14/include/parsertl/rules.hpp:1107-1122 | `resize_captures` leaves one block per production plus one, keeps every block's pairs, adds empty ones and keeps blocks laid out back to back |
| Rules.Relayout | lib/parsertl14/include/parsertl/rules.hpp:1113-1121 | the relayout loop keeps every block's pairs and the blocks before it, and lays the rest out back to back |
| Rules.RhsToken | lib/parsertl14/include/parsertl/rules.hpp:1017-1020 | reading a reduced rule's token from the token vector never throws; it is undefined outside the vector |
| Rules.OpenBracket | lib/parsertl14/include/parsertl/rules.hpp:959-972 | `(` opens a capture: it never throws, keeps the invariant, adds nothing to the grammar and pushes one open bracket |
| Rules.CloseBracket | lib/parsertl14/include/parsertl/rules.hpp:973-992 | `)` throws "Close bracket without open bracket in rule '…'." exactly when no bracket is open; otherwise it keeps the invariant and closes the innermost capture |
| Rules.NextAlternative | lib/parsertl14/include/parsertl/rules.hpp:993-1005 | `|` pushes the production being built, linked to the next index, and starts a new one for the same lhs at that index |
| Rules.AddTerminalSymbol | lib/parsertl14/include/parsertl/rules.hpp:1035-1047 | a terminal appended to the rhs passes its precedence and associativity to the production exactly when it has a precedence |
| Rules.AddIdentifier | lib/parsertl14/include/parsertl/rules.hpp:1014-1051 | an identifier is appended as the terminal it names, or else as a non-terminal registered if new, keeping the invariant |
| Rules.AddLiteral | lib/parsertl14/include/parsertl/rules.hpp:1052-1072 | a quoted token is registered as a terminal if new and appended, keeping the invariant |
| Rules.SetPrec | lib/parsertl14/include/parsertl/rules.hpp:1073-1091 | `%prec` throws `Unknown token "…".` exactly for an unregistered terminal; otherwise it replaces the production's precedence and associativity unconditionally |
| Rules.BuildAction | lib/parsertl14/include/parsertl/rules.hpp:955-1095 | one pass of `push_production`'s loop keeps the invariant, takes nothing back, and every production it adds has the rule's lhs |
| Rules.Started | lib/parsertl14/include/parsertl/rules.hpp:950 | the first table step never throws |
| Rules.BuildStepKeeps | lib/parsertl14/include/parsertl/rules.hpp:952-1099 | every pass of the loop keeps the invariant and the progress made |
| Rules.Finish | lib/parsertl14/include/parsertl/rules.hpp:1104 | the production being built joins the grammar at its end |
| Rules.FinishGrows | lib/parsertl14/include/parsertl/rules.hpp:1104 | after the loop the grammar has grown and every added production has the rule's lhs |
| Rules.FinishWf | lib/parsertl14/include/parsertl/rules.hpp:1104 | pushing the production being built keeps the registry invariant |
| Rules.Opened | lib/parsertl14/include/parsertl/rules.hpp:924-949 | before the loop the lhs is registered as a non-terminal with a location and the grammar is unchanged |
| Rules.PushProductionGrows | lib/parsertl14/include/parsertl/rules.hpp:922-1105 | `push_production` adds at least one production, all with the lhs's id, takes nothing back and keeps the invariant |
| Rules.PushProductionExtends | lib/parsertl14/include/parsertl/rules.hpp:922-1105 | a pushed production is appended after the existing ones under the lhs's id, the lhs is registered, and nothing registered before is taken back |
| Rules.PushProductionWf | lib/parsertl14/include/parsertl/rules.hpp:922-1105 | `push_production` keeps the registry invariant |
| Rules.Top | lib/parsertl14/include/parsertl/rules.hpp:335-394 | the rhs stack's top is its last entry, and undefined on an empty stack |
| Rules.MergeTop | lib/parsertl14/include/parsertl/rules.hpp:365-379 | popping the top and appending it after a space to the entry below needs two entries and is undefined otherwise |
| Rules.NewRuleName | lib/parsertl14/include/parsertl/rules.hpp:402-409 | a generated rule is named `lhs_N` with N the lhs's bumped counter, and recorded as generated |
| Rules.Generate | lib/parsertl14/include/parsertl/rules.hpp:397-478 | an EBNF operator replaces the top of the rhs stack by a reference to a newly named rule with the operator's body, and queues the rule; undefined on an empty stack |
| Rules.RewriteAction | lib/parsertl14/include/parsertl/rules.hpp:323-495 | only reductions act; an action changes only the generated-rule counters and names, adds names, and queues rules it records as generated |
| Rules.RewriteStepKeeps | lib/parsertl14/include/parsertl/rules.hpp:320-500 | every pass of `push`'s loop keeps what the rewrite promises relative to the registry it started from |
| Rules.PushGenerated | lib/parsertl14/include/parsertl/rules.hpp:517-522 | pushing the generated rules registers each one's name, takes nothing back and keeps the invariant |
| Rules.Push | lib/parsertl14/include/parsertl/rules.hpp:278-530 | `push` throws "Invalid name", "… is already defined as a TERMINAL." and "… is already defined as a generated rule." in that order; a rule the EBNF tables reject throws "Syntax error in rule '…': '…'." quoting the rule text as passed, up to any NUL; otherwise it returns the index its first production gets |
| Rules.PushRewrittenGrows | lib/parsertl14/include/parsertl/rules.hpp:514-529 | pushing the rewritten rhs and the generated rules gives a pushed rule |
| Rules.PushGrows | lib/parsertl14/include/parsertl/rules.hpp:278-530 | a pushed rule is a non-terminal owning the production at the returned index; nothing registered before is taken back and the invariant is kept |
| Rules.Unused | lib/parsertl14/include/parsertl/rules.hpp:632-665 | the unused rules are exactly the non-terminals other than the start that no rhs names |
| Rules.StartRule | lib/parsertl14/include/parsertl/rules.hpp:607-630 | the start rule is the one set, or else the first production's lhs; its id exists exactly when it is a registered non-terminal |
| Rules.Validate | lib/parsertl14/include/parsertl/rules.hpp:600-723 | `validate()` throws "No productions are defined." on an empty grammar, "Specified start rule does not exist." without a start, and otherwise leaves `$accept` as the start when it returns |
| Rules.ValidateStart | lib/parsertl14/include/parsertl/rules.hpp:632-723 | once the start rule is known, the unused-rule check, the `$accept` production and the no-productions check either throw or return rules whose start is `$accept` |
| Rules.AugmentEndsWithAccept | lib/parsertl14/include/parsertl/rules.hpp:671-680 | whatever the re-lexed start name gives, the last production is the `$accept` rule and ends with `$`; nothing before is taken back and the invariant is kept |
| Rules.PushProductionStopsAtUnrecognised | lib/parsertl14/include/parsertl/rules.hpp:949-1104 | a rule whose first lexeme no rule-lexer pattern matches ends the loop at once, and the production is pushed with an empty rhs |
| Rules.RuleSyntaxErrorKeepsText | lib/parsertl14/include/parsertl/rules.hpp:502-511 | the message for `push("x", "a b )")` is "Syntax error in rule 'x': 'a b )'.", the text as passed |
| Rules.NameLexemesOneIdentifier | lib/parsertl14/include/parsertl/rules.hpp:134-151 | the rule lexer reads a name as the one identifier it names exactly when it begins with a letter, `_` or `.`; a leading digit matches no pattern |
| Rules.AugmentDigitStart | lib/parsertl14/include/parsertl/rules.hpp:671-680 | for a start name beginning with a digit, the `$accept` rule is `$accept: $` |
| Rules.NoUnusedMeansUsed | lib/parsertl14/include/parsertl/rules.hpp:632-665 | with no unused rule left, every non-terminal but the start is named by some rhs |
| Rules.UsedKept | lib/parsertl14/include/parsertl/rules.hpp:671-680 | a use survives growing the grammar when the old productions keep their rhs |
| Rules.AugmentReady | lib/parsertl14/include/parsertl/rules.hpp:667-723 | the `$accept` step leaves a registry ready for the generator once no rule is unused and every non-terminal has a production |
| Rules.ValidateReady | lib/parsertl14/include/parsertl/rules.hpp:600-723 | a grammar `validate()` accepts is ready for the generator: `$accept` is the start, every non-terminal has a production, every one but the start is used, and the invariant holds |
| Rules.NewerAsWrittenRuleNineCrashes | lib/parsertl14/include/parsertl/rules.hpp:373-381 | with the rule numbering as written, the reduction by `rhs_list: rhs` runs the `rhs_list: rhs_list rhs` handler and reads an empty stack; with the corrected numbering it does nothing |
| RulesOld.New | lib/parsertl/rules.hpp:117-155 | a new registry satisfies the registry invariant and holds only `$` as terminal 0, no non-terminals, productions or start |
| RulesOld.NameOf | lib/parsertl/rules.hpp:404-418 | ids are positions: an id names the name registered at that position, and any other id the empty string |
| RulesOld.InsertTerminal | lib/parsertl/rules.hpp:474-478 | `insert_terminal` registers the name if new, returns its position, makes room for its information and keeps the invariant |
| RulesOld.Declare | lib/parsertl/rules.hpp:420-447 | a token directive throws "Unrecognised char in func()." exactly when some name is not a token; otherwise every name it reads is a terminal, nothing is taken back and the invariant is kept |
| RulesOld.DeclareLevel | lib/parsertl/rules.hpp:162-184 | `left`, `right`, `nonassoc` and `precedence` use up one precedence level |
| RulesOld.TokenId | lib/parsertl/rules.hpp:206-222 | `token_id` succeeds exactly for a registered terminal, with its position, and otherwise throws "Unknown token 'name'." |
| RulesOld.SetStart | lib/parsertl/rules.hpp:224-228 | `start(name)` sets the start exactly for a valid (non-empty) name, and otherwise throws "Invalid name '…'." |
| RulesOld.StartId | lib/parsertl/rules.hpp:230-235 | `start()` is npos without a start, is defined exactly when the start is a registered non-terminal, and then names it back |
| RulesOld.Opened | lib/parsertl/rules.hpp:494-515 | before the loop the lhs is registered as a non-terminal, the production started carries its id, the grammar keeps its length and contents, and the invariant carries over to the production being built |
| RulesOld.Step | lib/parsertl/rules.hpp:518-602 | one lexeme of `push_production` throws "Syntax error in rule '…': '…'." quoting the rule text as passed for a lexeme the rule lexer does not know, and otherwise keeps the invariant and takes nothing back |
| RulesOld.Run | lib/parsertl/rules.hpp:516-603 | the loop over the rule's lexemes keeps the invariant, takes nothing back, every production it adds has the rule's lhs, and a lexeme the rule lexer does not know throws the syntax error at once |
| RulesOld.PushProduction | lib/parsertl/rules.hpp:494-606 | `push_production` registers the lhs, adds at least one production, all with the lhs's id, and leaves the old productions alone; a rule text whose first lexeme is unknown throws the syntax error quoting the text |
| RulesOld.Push | lib/parsertl/rules.hpp:186-204 | `push` throws "Invalid name" for a bad lhs and "… is already defined as a TERMINAL." for a terminal's name, and otherwise returns the index of the last production |
| RulesOld.RunCountsAlternatives | lib/parsertl/rules.hpp:578-588 | the loop adds one production per `|` |
| RulesOld.PushProductionCountsAlternatives | lib/parsertl/rules.hpp:494-606 | a rule with n `|`s adds n + 1 productions |
| RulesOld.PushReturnsLast | lib/parsertl/rules.hpp:202-203 | `push` returns the index of the rule's last production, not its first |
| RulesOld.FirstUse | lib/parsertl/rules.hpp:287-304 | the scan finds no production using the start rule exactly when none does, and otherwise the first one |
| RulesOld.StartRule | lib/parsertl/rules.hpp:243-267 | the start rule is the one set, or else the first production's lhs; its id exists exactly when it is a registered non-terminal, at its position |
| RulesOld.CheckProductions | lib/parsertl/rules.hpp:309-321 | the closing loop returns the registry unchanged exactly when every non-terminal has a production, and otherwise throws "Non-terminal '…' does not have any productions." for one that has none |
| RulesOld.ValidateWith | lib/parsertl/rules.hpp:237-322 | `validate()` throws "No productions are defined." on an empty grammar, "Specified start rule does not exist." without a start; when it returns every non-terminal has a production, the start is `$accept` or the start rule, and a `$accept` rule was only added for a start name beginning with a letter, `_` or `.` |
| RulesOld.PushRuleAB | lib/parsertl/rules.hpp:186-204 | `push("a", "b")` registers `b` as a non-terminal without a production |
| RulesOld.PushProductionRuleAB | lib/parsertl/rules.hpp:494-606 | the productions of `push("a", "b")` are the single production `a: b` |
| RulesOld.PushProductionNeverCrashes | lib/parsertl/rules.hpp:494-606 | on a well-formed registry `push_production` never reads past the grammar |
| RulesOld.AugmentEndsWithEoi | lib/parsertl/rules.hpp:274-281 | a fresh `$accept` rule is the start rule's only production, ends with `$`, and keeps the invariant; a start name beginning with a digit or `-` throws "Syntax error in rule '$accept': '…'." quoting the name |
| RulesOld.SyntaxErrorKeepsText | lib/parsertl/rules.hpp:586-598 | the message for `push("x", "a ?")` is "Syntax error in rule 'x': 'a ?'.", the text as passed |
| RulesOld.NameLexemesOneSymbol | lib/parsertl/rules.hpp:125-149 | the rule lexer reads a name as the one symbol it names exactly when it begins with a letter, `_` or `.`; otherwise its first lexeme is unknown |
| RulesOld.AugmentNonSymbolStart | lib/parsertl/rules.hpp:274-281 | re-pushing a start name that begins with a digit or `-` as the `$accept` rule throws "Syntax error in rule '$accept': '…'." quoting the name |
| RulesOld.ValidateNonSymbolStartThrows | lib/parsertl/rules.hpp:237-281 | `validate()` on a start rule like `push("1", "'a' 'b'")`, whose first production is not a single symbol, throws the `$accept` syntax error |
| RulesOld.AugmentNeverCrashes | lib/parsertl/rules.hpp:274-281 | adding the `$accept` rule to a well-formed registry never reads past the grammar |
| RulesOld.EndStartEndsWithEoi | lib/parsertl/rules.hpp:283-287 | appending `$` to the start rule's single-symbol first production keeps the invariant, and the start rule then ends with `$` |
| RulesOld.ValidateNeverCrashes | lib/parsertl/rules.hpp:237-322 | the corrected `validate()` never reads past the grammar of a well-formed registry |
| RulesOld.ValidateEndsWithEoi | lib/parsertl/rules.hpp:237-322 | what `validate()` accepts keeps the invariant, and its start rule's first production ends with `$` |
| RulesOld.ValidateAsWrittenCrashes | lib/parsertl/rules.hpp:269-271 | as written, `validate()` reads `_grammar[npos]` whenever the start rule has no production |
| RulesOld.PushAcceptAB | lib/parsertl/rules.hpp:274-281 | `validate()` of the `a: b` registry with start `b` pushes `$accept: b` |
| RulesOld.AugmentAB | lib/parsertl/rules.hpp:274-281 | the `$accept: b $` rule is added to the `a: b` registry as expected |
| RulesOld.ValidateAB | lib/parsertl/rules.hpp:309-321 | corrected, `validate()` of the `a: b` registry with start `b` reports that `b` has no productions |
| RulesOld.StartWithoutProductions | lib/parsertl/rules.hpp:186-322 | `push("a", "b")` then `start("b")`: as written `validate()` crashes; corrected, it adds `$accept` and throws "Non-terminal 'b' does not have any productions." |
| SearchRun.ShiftTo | lib/parsertl14/include/parsertl/search.hpp:249-271 | a shift pushes the target state, moves the lexer on only when the generation's rule says so, reads the new lookahead id and looks up its entry in the target state |
| SearchRun.Move | lib/parsertl14/include/parsertl/search.hpp:247-325 | one `next`: a shift as above; reduce, goto, accept and error exactly as one `lookup` step |
| SearchRun.MoveOnLexemeIsLoopBody | lib/parsertl14/include/parsertl/search.hpp:249-256 | with the newest rule (move on unless the current lexeme is end of input) a move is the `parse` loop body |
| SearchRun.MoveOnLookaheadIsLookup | lib/parsertl14/parsertl/search.hpp:153-240 | with the older rule (move on unless the lookahead id is 0) a move is exactly one `lookup` |
| SearchRun.Record | lib/parsertl14/include/parsertl/search.hpp:273-279 | a shift into a state whose end-of-input entry is not an error replaces the snapshot with the new lexer position, the stack, lookahead 0 and that entry; nothing else touches it |
| SearchRun.Run | lib/parsertl14/include/parsertl/search.hpp:127-132 | the inner loop never throws, stops only at accept or error, never forgets a rule id it reduced by, and does nothing when already stopped |
| SearchRun.Body | lib/parsertl14/include/parsertl/search.hpp:430-485 | a `details::parse` pass leaves an accept entry alone and otherwise makes one move |
| SearchRun.Finish | lib/parsertl14/include/parsertl/search.hpp:425-502 | `details::parse` never throws, keeps the reduced ids it was given, and reports failure at once from an error entry |
| SearchRun.FinishIsParse | lib/parsertl14/include/parsertl/search.hpp:425-502 | with the newest rule `details::parse` completes exactly when `parse` does, with the same verdict and final state |
| SearchRun.RunIsParse | lib/parsertl14/include/parsertl/search.hpp:127-139 | an attempt's inner loop followed by the pop on accept gives exactly `parse`'s answer: failure at an error entry, success with the popped state at accept |
| SearchRun.RunNeverPassesEoi | lib/parsertl14/include/parsertl/search.hpp:255-256 | with the newest rule a run never moves its lexer over an end-of-input token |
| SearchRun.RunSnapshotWithinInput | lib/parsertl14/include/parsertl/search.hpp:273-279 | a snapshot taken during a run lies between where the run started and where it stopped, with no end-of-input token between |
| SearchRun.RunSnapshotIndependent | lib/parsertl14/include/parsertl/search.hpp:124-132 | the snapshot a run starts with does not change where it stops, what it reduced by, or whether it completes |
| Search.Attempt | lib/parsertl14/include/parsertl/search.hpp:119-152 | an attempt of the `prod_set` search never throws; its meaning is stated by the lemmas below |
| Search.AttemptIgnoresStaleSnapshot | lib/parsertl14/include/parsertl/search.hpp:110-145 | `last_eoi_` left over from an earlier attempt never changes an attempt's verdict, end or `prod_set`, because `last_results_` is cleared first |
| Search.SearchFrom | lib/parsertl14/include/parsertl/search.hpp:117-158 | the outer loop never throws |
| Search.SearchSet | lib/parsertl14/include/parsertl/search.hpp:104-161 | `search` never throws, and from end of input reports no match with the end iterator and the `prod_set` untouched |
| Search.SearchFindsFirstMatch | lib/parsertl14/include/parsertl/search.hpp:104-161 | the search stops at the FIRST start that matches: every start passed over misses, a hit starts at `iter` and ends at `end`, a miss leaves `iter` at end of input with the end iterator |
| Search.SearchAdvances | lib/parsertl14/include/parsertl/search.hpp:104-161 | the search loop moves its start only forwards and never past end of input |
| Search.SearchStopsAtMatch | lib/parsertl14/include/parsertl/search.hpp:104-161 | a search that reports a hit has `end` set and the grammar matches from its start to that end; one that reports no hit stands at end of input with no end iterator |
| Search.SearchSkipsMisses | lib/parsertl14/include/parsertl/search.hpp:104-161 | every start the search passes over is one at which the grammar does not match |
| Search.MatchWithinInput | lib/parsertl14/include/parsertl/search.hpp:134-152 | a match ends at or after its start, with no end-of-input token between |
| Search.AcceptIsParse | lib/parsertl14/include/parsertl/search.hpp:127-139 | a direct accept is what `parse` from the same start would report, at the same lexer position; an error entry is `parse`'s failure |
| SearchMap.SpanOf | lib/parsertl14/include/parsertl/search.hpp:368-399 | the token a reduce pushes spans the rhs tokens; an empty rhs gives a zero-width token at the previous token's end (or the current lexeme); a rhs longer than the token vector is undefined |
| SearchMap.TokenMove | lib/parsertl14/include/parsertl/search.hpp:327-423 | a token-mode move makes the same state move as the plain one; a shift appends the current lexeme, a reduce replaces its rhs tokens by the lhs span |
| SearchMap.TokenRun | lib/parsertl14/include/parsertl/search.hpp:188-192 | the first pass in token mode never throws and stops only at accept or error |
| SearchMap.TokenRunIsRun | lib/parsertl14/include/parsertl/search.hpp:188-192 | the token vector never steers the first pass: it stops where the plain pass stops, with the same snapshot position |
| SearchMap.Recorded | lib/parsertl14/include/parsertl/search.hpp:544-551 | a move records only reductions by rules with a non-empty rhs, each with exactly its rhs tokens |
| SearchMap.TokenFinish | lib/parsertl14/include/parsertl/search.hpp:504-605 | the token-mode `details::parse` never throws, keeps what was recorded, and records only well-formed reductions |
| SearchMap.Again | lib/parsertl14/include/parsertl/search.hpp:200-201 | re-lexing from the attempt's start to the snapshot is possible exactly when the snapshot does not lie before the start, and yields exactly the tokens between the two |
| SearchMap.Reparse | lib/parsertl14/include/parsertl/search.hpp:200-207 | the re-parse never throws and records only well-formed reductions |
| SearchMap.MapAttempt | lib/parsertl14/include/parsertl/search.hpp:180-232 | an attempt of the `prod_map` search never throws and records only well-formed reductions |
| SearchMap.MapSearchFrom | lib/parsertl14/include/parsertl/search.hpp:163-236 | the `prod_map` search never throws, records only well-formed reductions, and reports a hit exactly when it reports an end |
| SearchMap.DirectAcceptAgrees | lib/parsertl14/include/parsertl/search.hpp:194-211 | when the first pass accepts, the `prod_map` form reports the same match end as the `prod_set` form |
| SearchMap.KeyOrder | lib/parsertl14/include/parsertl/search.hpp:50-64 | the multimap yields a permutation of the recorded reductions, sorted by rule id |
| SearchMap.InsertByKey | lib/parsertl14/include/parsertl/search.hpp:50 | inserting into the ordered sequence adds exactly the new entry |
| SearchMap.InsertKeepsBound | lib/parsertl14/include/parsertl/search.hpp:50 | inserting keeps a lower bound on the keys |
| SearchMap.InsertKeepsSorted | lib/parsertl14/include/parsertl/search.hpp:50 | inserting keeps the sequence sorted by key |
| SearchMap.WithKey | lib/parsertl14/include/parsertl/search.hpp:50 | the entries selected for a key all have that key |
| SearchMap.WithKeyInsert | lib/parsertl14/include/parsertl/search.hpp:50 | inserting an entry adds it in front of the earlier entries with its key and leaves the other keys alone |
| SearchMap.KeyOrderIsStable | lib/parsertl14/include/parsertl/search.hpp:50-64 | the multimap order is stable: the reductions of each rule id come out in the order they were recorded |
| SearchMap.AddSpans | lib/parsertl14/include/parsertl/search.hpp:70-83 | the pair loop keeps the number of slots, only appends to each slot, and leaves slot 0 alone |
| SearchMap.FillCaptures | lib/parsertl14/include/parsertl/search.hpp:64-85 | the capture loop keeps the number of slots, only appends to each slot, and leaves slot 0 alone |
| SearchMap.LastEnd | lib/parsertl14/include/parsertl/search.hpp:87-95 | the end of the whole match is the furthest end of any recorded reduction, or the match start when it is further |
| SearchMap.SearchCaptures | lib/parsertl14/include/parsertl/search.hpp:42-101 | the `captures` form hits exactly when it has an end; a miss leaves the captures empty; a hit sizes them by the capture table and makes slot 0 one span from the match start |
| SearchMap.AddSpansSound | lib/parsertl14/include/parsertl/search.hpp:70-83 | every span the pair loop appends is the one its capture row assigns to that slot |
| SearchMap.PairPlacedGrows | lib/parsertl14/include/parsertl/search.hpp:70-83 | a span once placed stays placed when slots only grow |
| SearchMap.AddSpansComplete | lib/parsertl14/include/parsertl/search.hpp:70-83 | every pair of the row puts its span in its slot |
| SearchMap.FillCapturesSound | lib/parsertl14/include/parsertl/search.hpp:64-85 | every span the capture loop adds comes from one of the recorded reductions |
| SearchMap.FillCapturesComplete | lib/parsertl14/include/parsertl/search.hpp:64-85 | every capture pair of every recorded reduction whose rule has a capture row is placed in its slot |
| SearchMap.FillInKeyOrder | lib/parsertl14/include/parsertl/search.hpp:64-85 | filling in multimap order finds exactly the spans the recorded order would, soundly and completely |
| SearchMap.SlotZeroReplaced | lib/parsertl14/include/parsertl/search.hpp:97 | rewriting slot 0's end disturbs no capture pair |
| SearchMap.SearchCapturesContents | lib/parsertl14/include/parsertl/search.hpp:42-101 | after a hit, every recorded reduction ends within the whole match, every capture span comes from a recorded reduction, and every capture pair of every recorded reduction is in its slot |
| SearchMap.FilledContents | lib/parsertl14/include/parsertl/search.hpp:64-97 | filling the capture slots from the recorded reductions in key order puts every capture pair of every reduction in its slot, and every span in a slot above 0 comes from some recorded reduction |
| SearchMap.MapAttemptWithinInput | lib/parsertl14/include/parsertl/search.hpp:178-232 | a `prod_map` attempt's match ends at or after its start without passing end of input, and a miss leaves a snapshot consistent with its start |
| SearchMap.TokenRunWithin | lib/parsertl14/include/parsertl/search.hpp:185-192 | the token-level parse loop of an attempt never passes end of input, and the end-of-input snapshot it leaves is the one it was given or one taken at or after its start |
| SearchMap.ConsistentAfterNext | lib/parsertl14/include/parsertl/search.hpp:229-232 | a snapshot consistent with a start stays consistent with the start one token on |
| SearchMap.MapSearchUnfold | lib/parsertl14/include/parsertl/search.hpp:178-233 | one step of the outer loop: a hit stops at this start, a miss goes on from the next token with its recorded map |
| SearchMap.MapSearchWithinInput | lib/parsertl14/include/parsertl/search.hpp:163-236 | the `prod_map` search never moves backwards, and a match ends at or after its start without passing end of input |
| SearchMap.MapSearchAdvances | lib/parsertl14/include/parsertl/search.hpp:163-236 | the `prod_map` search moves its start only forwards and never past end of input |
| SearchMap.MapSearchEndWithin | lib/parsertl14/include/parsertl/search.hpp:163-236 | a match the `prod_map` search reports ends at or after its start with no end-of-input token passed on the way |
| SearchIterator.Advance | lib/parsertl14/include/parsertl/search_iterator.hpp:82-96 | `lookup` never throws; on the end iterator it crashes; a miss gives the end iterator with no captures; a hit keeps the machine and sizes the captures by the capture table |
| SearchIterator.Make | lib/parsertl14/include/parsertl/search_iterator.hpp:31-38 | the constructor never throws |
| SearchIterator.MakeDiscardsSeed | lib/parsertl14/include/parsertl/search_iterator.hpp:31-38 | the seed span is cleared unseen: construction is one `lookup`, and a live iterator's whole-match capture starts where the match starts |
| SearchIterator.AdvanceMovesForward | lib/parsertl14/include/parsertl/search_iterator.hpp:82-96 | the iterator moves only forwards, never passes end of input, and a live iterator sits where its match ended |
| SearchIterator.PostIncrement | lib/parsertl14/include/parsertl/search_iterator.hpp:46-52 | postfix `++` returns the iterator as it was and leaves it advanced |
| SearchIterator.EqualIsEquivalence | lib/parsertl14/include/parsertl/search_iterator.hpp:64-75 | `==` is an equivalence; all end iterators are equal, none equals a live one, and live ones compare by machine and captures |
| SearchOlder.OldAttempt | lib/parsertl14/parsertl/search.hpp:47-90 | an older attempt never throws |
| SearchOlder.OldSearchFrom | lib/parsertl14/parsertl/search.hpp:47-90 | the older outer loop never throws |
| SearchOlder.OldSearchSet | lib/parsertl14/parsertl/search.hpp:39-92 | the older `search` never throws and from end of input reports no match with the `prod_set` untouched |
| SearchOlder.MoveKeepsAligned | lib/parsertl14/parsertl/search.hpp:153-240 | with a generator-built table both advance rules make the same move and stay aligned |
| SearchOlder.RunAdvanceAgrees | lib/parsertl14/parsertl/search.hpp:58-65 | so the older inner loop runs exactly as the newest |
| SearchOlder.FinishAdvanceAgrees | lib/parsertl14/parsertl/search.hpp:340-415 | and the older `details::parse` runs exactly as the newest |
| SearchOlder.FinishFailsAtError | lib/parsertl14/parsertl/search.hpp:340-415 | a `details::parse` that does not accept stops at an error entry |
| SearchOlder.RunKeepsSnapAligned | lib/parsertl14/parsertl/search.hpp:180-192 | every snapshot a run records has the end-of-input lookahead |
| SearchOlder.OldAttemptAgrees | lib/parsertl14/parsertl/search.hpp:47-90 | with `last_eoi_` and `last_results_` carried between attempts, an older attempt still reports the newest's verdict, end and `prod_set`, and carries on only a harmless snapshot |
| SearchOlder.OldSearchAgrees | lib/parsertl14/parsertl/search.hpp:39-92 | the older search finds exactly what the newest finds |
| SearchOlder.OldSearchFindsFirstMatch | lib/parsertl14/parsertl/search.hpp:39-92 | the older search stops at the first start that matches and never moves past end of input |
| SearchOlder.Keys | lib/parsertl14/parsertl/search.hpp:94-149 | the key set of recorded reductions is exactly the set of their ids |
| SearchOlder.KeysAppend | lib/parsertl14/parsertl/search.hpp:294-298 | recording one more reduction adds exactly its id to the keys |
| SearchOlder.RecordedKeys | lib/parsertl14/parsertl/search.hpp:294-298 | what a move records is keyed exactly by the ids it reduces by |
| SearchOlder.RecordedFrom | lib/parsertl14/parsertl/search.hpp:294-298 | every reduce, whatever its rhs length, records its id with the last rhs-length tokens |
| SearchOlder.OldTokenRun | lib/parsertl14/parsertl/search.hpp:114-121 | the older token-mode first pass never throws, stops only at accept or error, and keeps what was recorded |
| SearchOlder.OldTokenFinish | lib/parsertl14/parsertl/search.hpp:417-496 | the older token-mode re-parse never throws and keeps what was recorded |
| SearchOlder.OldMapAttempt | lib/parsertl14/parsertl/search.hpp:104-147 | an attempt of the older `prod_map` search never throws |
| SearchOlder.OldMapSearchFrom | lib/parsertl14/parsertl/search.hpp:104-147 | the older `prod_map` outer loop never throws |
| SearchOlder.OldSearchMap | lib/parsertl14/parsertl/search.hpp:94-149 | the older `prod_map` search never throws and from end of input reports no match with the map untouched |
| SearchOlder.OldTokenRunIsRun | lib/parsertl14/parsertl/search.hpp:114-121 | the token vector never steers the first pass, and the ids it records are the ids the plain pass reduces by |
| SearchOlder.OldTokenFinishIsFinish | lib/parsertl14/parsertl/search.hpp:417-496 | the token-mode re-parse stops where the plain one stops, recording the ids it reduces by |
| SearchOlder.OldMapIsOldSet | lib/parsertl14/parsertl/search.hpp:94-149 | when the `prod_map` search completes, the `prod_set` search gives the same match, and the map's keys are the set |
| SearchOldest.HitBy | lib/parsertl/search.hpp:181-182 | `hit_` is raised exactly by a reduce by a required rule and never lowered |
| SearchOldest.OldestRun | lib/parsertl/search.hpp:49-54 | the inner loop never throws, stops only at accept or error, and keeps `hit_` once raised |
| SearchOldest.OldestFinish | lib/parsertl/search.hpp:313-386 | `details::parse` never throws and keeps `hit_` once raised |
| SearchOldest.OldestAttempt | lib/parsertl/search.hpp:47-76 | an oldest attempt never throws |
| SearchOldest.OldestSearchFrom | lib/parsertl/search.hpp:45-77 | the oldest outer loop never throws |
| SearchOldest.OldestSearch | lib/parsertl/search.hpp:33-80 | the oldest `search` never throws, and from end of input reports no match |
| SearchOldest.OldestRunIsRun | lib/parsertl/search.hpp:133-218 | `hit_` over an inner loop is exactly whether the ids reduced by meet the required set |
| SearchOldest.OldestFinishIsFinish | lib/parsertl/search.hpp:313-386 | and likewise over `details::parse` |
| SearchOldest.OldestAttemptIsOlderFiltered | lib/parsertl/search.hpp:47-76 | an oldest attempt stops where an older attempt hits, and its `hit_` says whether that `prod_set` meets the requirement or the requirement is empty |
| SearchOldest.OldestIsOlderFiltered | lib/parsertl/search.hpp:33-80 | the oldest search stops at the same start and end as the older search, and its result is the older result filtered by the requirement |
| SearchOldest.OldestTokenRun | lib/parsertl/search.hpp:220-311 | the token-form inner loop never throws and stops only at accept or error |
| SearchOldest.OldestTokenAttempt | lib/parsertl/search.hpp:96-125 | a token-form attempt never throws |
| SearchOldest.OldestTokenSearchFrom | lib/parsertl/search.hpp:94-126 | the token-form outer loop never throws |
| SearchOldest.OldestTokenSearch | lib/parsertl/search.hpp:82-129 | the token form never throws, and from end of input reports no match with the vector untouched |
| SearchOldest.OldestTokenRunIsRun | lib/parsertl/search.hpp:220-311 | the token vector never steers the inner loop |
| SearchOldest.OldestTokenIsOldest | lib/parsertl/search.hpp:82-129 | when the token form completes, the plain form gives the same result |

## Left out

- Zend/PHP glue in `parle.cpp`: argument parsing, object allocation, class and constant registration, reference
  counting. Only each method's guards and its effect on the object are modelled.
- `parle.cpp` methods without logic of their own: `flags`, `insertMacro`, `tokenId` (pure delegation to the
  rules), `dump` (writes to stdout), and `RLexer::state`.
- PHP callbacks invoked by lexer rules are reduced to whether they could be prepared and whether the call
  succeeded (`LexerIterator`). The `std::cout` line trace in `lib/parle/lexer/iterator.hpp` is output only.
- lexertl's regex-to-DFA generator, its `lookup` and its rules are not part of this model. Wherever a lexer step
  is needed it is a parameter: a total step on match results, or a fixed token sequence. lexertl's
  `match_results` constructor is assumed to start with id 0 and `bol` true.
- The newest parsertl `state_machine.hpp`, `match_results.hpp` and `bison_lookup.hpp` are not part of this
  model. The newest runtime uses the older generation's logic, with the machine read through `At`. Its `lhs` and
  capture fields are assumed to be `id_type`.
- Lookup.LookaheadEntry: reads the machine with `At`, which gives a syntax error for a column at or past the
  column count. The older runtime reads `_table[state * _columns + id]` without a check (lib/parsertl14/parsertl/lookup.hpp:38-40,
  55-56, 61-62), modelled as `BuildTable.FlatAt`. The two agree for every id below the column count
  (`BuildTable.FlatReadsAgree`). A larger id whose flat index is still inside the table reads another row's
  cell in C++, which can be a shift, reduce or accept (`BuildTable.FlatAtCrossesRows`). A flat index past the
  end of the table is undefined in C++; the model reads it as the default error entry. Only a lexer rule
  pushed with an id the grammar does not know produces such an id.
- Lookup.Step: its go_to and reduce reads use `At` as well, with the same gap for an id at or past the column
  count.
- MatchResults.Reset: the same flat read at lib/parsertl14/parsertl/match_results.hpp:53, with the same gap.
- Lookup.Step: a reduce whose rule is at least as long as the stack, or an accept whose rule is longer than it,
  is `Undefined`. In C++ a rule longer than the stack makes `resize(size() - n)` wrap, and `std::vector::resize`
  then throws `std::length_error` (lookup.hpp:49-52, 72-77). Only a reduce by a rule exactly as long as the
  stack reaches `back()` on an empty stack, which is undefined. A table the generator builds never pops past
  the bottom of the stack, but that is not proved here.
- Lookup.TokenStep: the same `std::length_error` case is `Undefined`.
- BisonLookup.Step: the same `std::length_error` case (bison_lookup.hpp:105-109, 165-173) is `Undefined`.
- Parse.Parse: its "never throws" contract, and those of `SearchRun.Run`, the `Search*` attempts,
  `Match.CaptureLoop` and the iterators, hold because that `std::length_error` case counts as undefined.
- ParserSerialise.DecodeAction: a stored action code of 5 or more makes `load` fail. In C++
  `static_cast<action>(num_)` (lib/parsertl14/include/parsertl/serialise.hpp:137) gives the scoped enumeration (enums.hpp:10-17) an unnamed
  value, which the runtime's switches have no case for. `save` never writes such a code, so the round trips
  are unaffected.
- ParseStr.ErrorMessage: the bench is written for a newer parle API than the `parle.cpp` modelled here. It reads
  `$this->action`, `$i->id`, `$i->token` and `$stack->top` as properties, where this `parle.cpp` has methods.
  It names `Parser::ERROR_UNKNOWN_TOKEN`, which parle.cpp:1695 spells `ERROR_UNKOWN_TOKEN`. Against this
  `parle.cpp` the unknown-token branch raises PHP's undefined-constant `Error`. The model assumes the newer API,
  where that branch throws "Unknown token '…' at n".
- C++ `assert`s are taken as compiled out (`NDEBUG`). In the newest `push_production` the final
  `assert(results_.entry.action == action::accept)` (lib/parsertl14/include/parsertl/rules.hpp:1103) is skipped. In
  the older one the `assert(0)` ahead of the syntax error (lib/parsertl/rules.hpp:594) is skipped too, so the
  error is thrown.
- Rules.Augment: the start name is re-lexed by `push_production("$accept", start)`, modelled as `NameLexemes`.
  The name is one identifier when it begins with a letter, `_` or `.`. Otherwise a leading `-` is the `-`
  punctuation, and any other character matches no pattern and is skipped. lexertl is not part of this model,
  so this is how lexertl is taken to report an unmatched character. A leading digit gives `$accept: $`
  (`Rules.AugmentDigitStart`). For a leading `-` the outcome depends on the EBNF tables, and no contract states it.
- RulesOld.Augment: the same re-lex, for the older `validate()`. `-` has no pattern in the older rule lexer, so
  a start name beginning with a digit or `-` throws "Syntax error in rule '$accept': '…'."
  (`RulesOld.AugmentNonSymbolStart`).
- The object state C++ leaves behind after an exception has been thrown part-way through an operation is not
  modelled: a throw is a `Threw` outcome carrying the message.
- Generator.Build: the model starts after `rules_.validate()` (lib/parsertl14/include/parsertl/generator.hpp:54).
  It requires `Generator.Validated` (chained locations, rhs non-terminals below the location count, rhs
  terminals below the token count) instead of calling it. The throws of that call are `Rules.Validate`'s ("No
  productions are defined.", "Specified start rule does not exist.", the unused-rule and no-productions
  messages). `Rules.ValidateReady` proves `Rules.Ready` and `Rules.Wf` of what `validate()` returns, but `Rules.Wf`
  does not carry the rhs and terminal bounds. So the composition `Rules.Validate` then `Generator.Build` is not
  proved.
- Generator.BuildOld: the same gap for the older `build`. The model starts after `rules_.validate()`
  (lib/parsertl14/parsertl/generator.hpp:61) by requiring `Generator.Validated`. The `rules.hpp` of
  lib/parsertl14/parsertl, whose `validate()` that is, is not part of this model. So its throws are left out,
  and it is not proved that what it returns meets `Generator.Validated`.
- Generator conflict reports: the model records which conflicts arose, not the report's text (`ConflictsMessage`
  is a name, not the wording).
- The lookahead rewrite (`rewrite`, `build_dfa` in the generator) is modelled as a function over the LR(0)
  automaton (`Rewrite`). Its intermediate hash-map bookkeeping is replaced by linear search. `hash_set`'s
  `size_t` bucket arithmetic only picks a bucket and is left out.
- Loops the C++ does not prove to terminate (`parse`, `search`, the iterators, the generator's DFA construction,
  the bench's parse loop) take a `fuel` bound. Running out is the `OutOfFuel` outcome. Every property is stated
  for any fuel, so the bound hides no behaviour except non-termination itself.
- The rule lexer of `rules::push` is lexertl and is not part of this model. A rule's right-hand side is given
  twice: as the text passed, which the syntax-error messages quote, and as its lexemes. The lexemes are taken
  to be the rule lexer's reading of that text. Only the start name's re-lex in `validate()` is computed
  (`NameLexemes`).
- `std::ostream` formatting in the `debug.hpp` files is modelled as string concatenation. The `default:` case of
  the newest associativity switch (include/parsertl/debug.hpp:73) is unreachable, because all five
  associativities have a case.
- DebugOld: the older production layout (`_rhs` as symbols plus `%prec` text) is taken to be the newer one's,
  because the older `rules.hpp` of lib/parsertl14/parsertl is not part of this model.
- Debug.Name: reads past the symbol table as the empty name. No dump of a well-named view does so.
- Stream extraction failures in `load` (a non-number where a number is expected) are the `None` result. The
  stream's fail state is not modelled.
- Only the `char` instantiations are modelled. `wchar_t`/`char32_t` variants, `lib/parle/cvt.hpp`,
  `stream_num.hpp` and `narrow.hpp` are not part of this model.
- `read_bison.hpp` is not part of this model: it needs a running lexertl lexer.
- The bench: `urldecode` and `array_merge_recursive` are PHP built-ins and are parameters.
  - The debug `echo` and the timing scripts (`bench/parse_str.php`, `bench/phlexy_alike.php`) are output only.
  - Handler method names are the `Handler` datatype.
  - `ErrorKind` has the three error types of parsertl.
  - PHP array keys are normalised as PHP does (canonical integer strings become integer keys).
- Parse.Parse: the function's own contract says only that `parse` never throws. What it computes is stated by
  `ParseStopsAtErrorOrAccept`, `ParseNeverPassesEoi`, `ParseFuelMonotone` and `LoopBodyIsLookup`.
- Rules.Validate: the error cases are stated in the forward direction only. Several messages cannot be told
  apart from the outcome alone.
- Search.Attempt: its contract says only that it never throws. Its meaning is in
  `AttemptIgnoresStaleSnapshot`, `SearchFindsFirstMatch` and `AcceptIsParse`.
- Search.SearchFrom: its contract says only that it never throws. Its meaning is in `SearchFindsFirstMatch`.
- SearchIterator.Make: its contract says only that it never throws. Its meaning is in `MakeDiscardsSeed`.
- SearchOlder.OldAttempt: its contract says only that it never throws. Its meaning is in `OldAttemptAgrees`.
- SearchOlder.OldSearchFrom: its contract says only that it never throws. Its meaning is in `OldSearchAgrees`.
- SearchOlder.OldMapAttempt: its contract says only that it never throws. Its meaning is in `OldMapIsOldSet`.
- SearchOlder.OldMapSearchFrom: its contract says only that it never throws. Its meaning is in
  `OldMapIsOldSet`.
- SearchOldest.OldestAttempt: its contract says only that it never throws. Its meaning is in
  `OldestAttemptIsOlderFiltered`.
- SearchOldest.OldestSearchFrom: its contract says only that it never throws. Its meaning is in
  `OldestIsOlderFiltered`.
- SearchOldest.OldestTokenAttempt: its contract says only that it never throws. Its meaning is in
  `OldestTokenIsOldest`.
- SearchOldest.OldestTokenSearchFrom: its contract says only that it never throws. Its meaning is in
  `OldestTokenIsOldest`.
- Match.MatchCapturesAsWritten: its contract says only that it never throws. Its meaning is in
  `NoCaptureRowsCrashes` and `AsWrittenAgreesWhenDefined`.
- TokenStream: the lexer cursor is a helper with no row of its own.

## Findings

| source | as written | input that shows it | evidently intended | confidence | as-written member | corrected member |
|---|---|---|---|---|---|---|
| lib/parsertl/rules.hpp:268-271 | `validate()` indexes `_grammar` with the start rule's first production, which is `npos` when the start symbol was only used on a right-hand side | `push("a", "b")`, then `start("b")`, then `validate()` | take the `$accept` branch when the start rule has no production | not executed | RulesOld.ValidateAsWrittenCrashes, RulesOld.StartWithoutProductions | RulesOld.ValidateNeverCrashes, RulesOld.ValidateEndsWithEoi |
| lib/parsertl14/parsertl/ebnf_tables.hpp:84-107 | negative table entries are list-initialised into `std::vector<char>`; where `char` is unsigned that narrowing is ill-formed, so GCC and Clang reject the file, and it compiles only with narrowing errors turned off (`-Wno-narrowing`) | such a build on a platform whose `char` is unsigned, any rule: IDENTIFIER in state 0 | `signed char`, so the entries are valid and read back negative | not executed | EbnfTablesOld.UnsignedCharChangesFirstAction | EbnfTablesOld.IdentifierShiftedFirst |
| lib/parsertl14/include/parsertl/rules.hpp:373-381 | rule numbers in `ebnf_indexes` follow the older 22-rule EBNF grammar, but the tables included are the newer 23-rule ones | `push("s", "a")`: rule 9 (`rhs_list: rhs`) is handled as `rhs_list: rhs_list rhs` and pops an empty stack | indexes shifted by the newer grammar's extra rule | not executed | EbnfParse.NewerAsWrittenRolesMismatch, Rules.NewerAsWrittenRuleNineCrashes | EbnfParse.CorrectedRolesFitNewer, EbnfParse.NewerRolesMatch |
| lib/parsertl14/include/parsertl/match.hpp:33-34 | the captures form reads `_captures.back()` without checking for an empty capture table | any grammar without capture pairs, any input | guard it as `search` does (include/parsertl/search.hpp:59-61) | not executed | Match.MatchCapturesAsWritten, Match.NoCaptureRowsCrashes | Match.MatchCaptures |
| parle.cpp:396-418 | `Lexer::advance` checks `complete` but not that `consume` has supplied results | `build()`, then `advance()` without `consume` | fail with the "no results" error as the other result-reading methods do | not executed | ParleLexer.AdvanceAsWritten, ParleLexer.AdvanceAsWrittenCrashes | ParleLexer.Advance, ParleLexer.AdvanceAgrees |
| parle.cpp:434-457 | `bol` chooses its branch with `1 == ZEND_NUM_ARGS()` the wrong way round | `bol(true)` on a lexer whose flag is false answers false and leaves the flag unset; `bol()` stores an uninitialised value | `bol()` reads the flag and `bol($b)` sets it | not executed | ParleLexer.BolAsWritten, ParleLexer.BolAsWrittenSwapped | ParleLexer.Bol |
| parle.cpp:943-952 | `sigil(idx)` bounds `idx` by the size of the whole token vector, not by the reduced rule's rhs length | reducing by a one-symbol rule with three tokens on the vector, `sigil(2)` | reject `idx` at or past the rhs length | not executed | ParleParser.SigilAsWritten, ParleParser.SigilAsWrittenReadsPastEnd | ParleParser.Sigil, ParleParser.SigilChecked |
| bench/parse_str.impl.php:150 | the non-associative error message has no space after the token name | any non-associative token, say `x`: "Token xis not associative" (the message the modelled loop throws) | "Token x is not associative" | not executed | ParseStr.NonAssociativeAsWritten, ParseStr.NonAssociativeRunsTogether | ParseStr.NonAssociativeMessage, ParseStr.NonAssociativeWords |
