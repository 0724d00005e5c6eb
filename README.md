# doxygen_xml2qbk Quickbook output, modelled in Dafny

doxygen_xml2qbk is the tool Boost.Geometry uses to turn Doxygen's XML output
into Quickbook reference pages. This project models its text layer,
`doc/src/tools/doxygen_xml2qbk/quickbook_output.hpp`, and proves properties of
that model.

The text layer has two parts:

- string rewriters:
  - `qbk_escaped` protects underscores outside Quickbook markup;
  - `remove_template_parameters` collapses `<...>` blocks;
  - `to_section_name`, `replace_brackets`, `namespace_skipped` and `output_if_different`;
  - the splitting of a qualified name into index terms.
- emitters, which append Quickbook text to a `std::ostream`:
  - the template parameter list;
  - the function and enum synopses and the short synopsis;
  - markup blocks, headings and short parameter descriptions;
  - the header block;
  - the two function tables.

## How the model is built

- **The stream.** It is a class `OutputText.OutStream` with one field, `text`. Writing appends to it.
- **Emitters.** Every emitter is a method that `modifies` the stream. Each one loops as the C++ does, with the same `first` flags, `has_output` flag and index counter. Its `ensures` states the new text as the old text followed by a specification function of the inputs.
  - Example: `WriteSynopsis` ends with the text `Synopsis(f, multiline, showDefaults)` appended.
  - Lemmas then state what those functions promise: which parameters appear, when nothing is written, how rows follow the input order, and what a qualified name indexes.
- **The two scanners.** `qbk_escaped` and `remove_template_parameters` are methods with the source's loops. Each is proved equal to a recursive specification function (`Escape`, `Removed`).
  - Properties of the escaping are stated against an independent token-and-depth description (`Tokens`, `Pieces`).
  - Properties of `remove_template_parameters` are stated for names built from angle-free text and balanced blocks.
- **Boost and the standard library.** The string calls the header uses are modelled in `BoostString`: `replace_all_copy`, `to_lower_copy`, `trim_copy`, `split` with `token_compress_on`, `std::string::find` and `substr`, and the decimal output of a `size_t`.
- **Element records.** `DoxygenElements` holds the records from `doxygen_elements.hpp`, reduced to the fields the emitters read.

`remove_template_parameters` is modelled as written. Line 661 passes the absolute position `next_begin` to `substr` as a character count. For a second top-level block, the copied text therefore runs past that block's `<`. `TwoBlocks` and `SecondBlockExample` state the resulting output, for example `a<...>::c<d><...>`.

A `<` that is never closed is also kept as written. The loop writes `<...>` for it, then meets no further bracket and appends `substr(prev_i, npos)` with `prev_i` still at the start of the name. `UnclosedBlockRepeats` states the result, for example `a<...>a<b` for `a<b`.

## Model

| member | source | states |
|---|---|---|
| `OutputText.OutStream.constructor` | doc/src/tools/doxygen_xml2qbk/quickbook_output.hpp:61 | a stream starts out empty |
| `OutputText.OutStream.Write` | doc/src/tools/doxygen_xml2qbk/quickbook_output.hpp:77 | `out << s` appends `s` to what was written, and nothing else changes |
| `OutputText.FilterMembers` | doc/src/tools/doxygen_xml2qbk/quickbook_output.hpp:213-219 | a selecting loop keeps exactly the elements that pass its test (both directions) |
| `OutputText.FilterNone` | doc/src/tools/doxygen_xml2qbk/quickbook_output.hpp:213-222 | when no element passes the test, nothing is selected |
| `OutputText.FilterIdempotent` | doc/src/tools/doxygen_xml2qbk/quickbook_output.hpp:213-219 | selecting again with the same test changes nothing |
| `OutputText.ConcatEmpty` | doc/src/tools/doxygen_xml2qbk/quickbook_output.hpp:729-746 | the pieces written add up to nothing exactly when every piece is empty (used for the index table's rows) |
| `OutputText.IndexedAt` | doc/src/tools/doxygen_xml2qbk/quickbook_output.hpp:729-746 | the i-th piece of an index-numbered loop is the piece of element i, numbered i |
| `OutputText.JoinAppend` | doc/src/tools/doxygen_xml2qbk/quickbook_output.hpp:78-87 | a `first`-flag loop writes its opening before the first part and the separator between neighbours, never before the first or after the last |
| `OutputText.FilteredJoinStep` | doc/src/tools/doxygen_xml2qbk/quickbook_output.hpp:129-142 | a `first`-flag loop that skips elements writes the opening before the first element it keeps and the separator before each later one |
| `OutputText.FilteredConcatWrite` | doc/src/tools/doxygen_xml2qbk/quickbook_output.hpp:507-517 | a loop that writes a piece for each element passing a test has written the pieces of the kept elements, in order |
| `OutputText.ConcatWrite` | doc/src/tools/doxygen_xml2qbk/quickbook_output.hpp:729-746 | a loop that writes one piece per element has written the pieces of the elements seen so far, in order |
| `BoostString.ToLower` | doc/src/tools/doxygen_xml2qbk/quickbook_output.hpp:275 | `to_lower_copy` (ASCII): same length; `A`-`Z` shifted to lower case, all other characters kept; no upper-case letter is left |
| `BoostString.Find` | doc/src/tools/doxygen_xml2qbk/quickbook_output.hpp:649-650 | `find(c, from)` returns a position at or after `from` that holds `c`, or the length as `npos` |
| `BoostString.FindFirst` | doc/src/tools/doxygen_xml2qbk/quickbook_output.hpp:649-650 | no position between `from` and the one `find` returns holds `c`: it is the first |
| `BoostString.Substr` | doc/src/tools/doxygen_xml2qbk/quickbook_output.hpp:654 | `substr(pos, count)` is the slice from `pos` of `count` characters, cut short only by the end of the string |
| `BoostString.ReplaceAll` | doc/src/tools/doxygen_xml2qbk/quickbook_output.hpp:306 | `replace_all_copy` with the pattern as its own replacement returns the text unchanged, and a replacement no longer than the pattern never lengthens the text |
| `BoostString.ReplaceAllAbsent` | doc/src/tools/doxygen_xml2qbk/quickbook_output.hpp:306 | `replace_all_copy` returns text without the pattern unchanged |
| `BoostString.ReplaceAllAtFront` | doc/src/tools/doxygen_xml2qbk/quickbook_output.hpp:306 | an occurrence of the pattern at the front is replaced, and the scan resumes after it |
| `BoostString.ReplaceAllCharAppend` | doc/src/tools/doxygen_xml2qbk/quickbook_output.hpp:678 | replacing a one-character pattern acts on each part of a concatenation separately |
| `BoostString.ReplaceAllJoin` | doc/src/tools/doxygen_xml2qbk/quickbook_output.hpp:275 | in parts joined by a separator that cannot start inside a part, exactly the separators are replaced |
| `BoostString.SplitCompress` | doc/src/tools/doxygen_xml2qbk/quickbook_output.hpp:328 | `split` with `token_compress_on` yields at least one token, and no token contains the separator |
| `BoostString.SplitCompressJoin` | doc/src/tools/doxygen_xml2qbk/quickbook_output.hpp:328 | splitting non-empty, separator-free parts joined by the separator gives those parts back |
| `BoostString.TrimLeft` | doc/src/tools/doxygen_xml2qbk/quickbook_output.hpp:168 | what is left after cutting leading white space is a suffix of the input; everything cut is white space; the rest starts with a non-space |
| `BoostString.TrimRight` | doc/src/tools/doxygen_xml2qbk/quickbook_output.hpp:168 | what is left after cutting trailing white space is a prefix of the input; everything cut is white space; the rest ends with a non-space |
| `BoostString.TrimIsInfix` | doc/src/tools/doxygen_xml2qbk/quickbook_output.hpp:168 | `trim_copy` is the contiguous slice of its input that starts where leading white space ends; only white space lies before and after it |
| `BoostString.Trim` | doc/src/tools/doxygen_xml2qbk/quickbook_output.hpp:168 | `trim_copy` never lengthens the text, and a non-empty result neither starts nor ends with white space |
| `BoostString.TrimIdempotent` | doc/src/tools/doxygen_xml2qbk/quickbook_output.hpp:168 | trimming twice is trimming once |
| `BoostString.DecimalString` | doc/src/tools/doxygen_xml2qbk/quickbook_output.hpp:738 | `out << i` writes a non-empty run of digits with no leading zero unless `i` is 0 |
| `BoostString.DecimalRoundTrip` | doc/src/tools/doxygen_xml2qbk/quickbook_output.hpp:738 | reading the written digits back gives `i` |
| `QbkEscape.Escape` | doc/src/tools/doxygen_xml2qbk/quickbook_output.hpp:21-57 | the escaped text is never shorter than the input |
| `QbkEscape.QbkEscaped` | doc/src/tools/doxygen_xml2qbk/quickbook_output.hpp:21-57 | the loop, including its `i++; continue` after a backslash and its signed counter, returns `Escape(s, 0)` |
| `QbkEscape.FlattenTokens` | doc/src/tools/doxygen_xml2qbk/quickbook_output.hpp:30-54 | cutting the input into the units the loop consumes (a backslash pair or one character) loses nothing |
| `QbkEscape.EscapeByTokens` | doc/src/tools/doxygen_xml2qbk/quickbook_output.hpp:30-54 | the scan equals the token-wise description: each token rewritten from the bracket depth reached before it |
| `QbkEscape.BackslashPair` | doc/src/tools/doxygen_xml2qbk/quickbook_output.hpp:36-45 | a backslash and the character after it are copied verbatim, and the counter is unchanged (`\[` and `\]` do not count) |
| `QbkEscape.TrailingBackslash` | doc/src/tools/doxygen_xml2qbk/quickbook_output.hpp:36-45 | a trailing backslash that the scan reads as a token of its own (no backslash before it pairs with it) is copied alone, after the escaping of the text before it |
| `QbkEscape.TrailingBackslashPlain` | doc/src/tools/doxygen_xml2qbk/quickbook_output.hpp:36-45 | after text without backslashes, a final backslash is such a lone token |
| `QbkEscape.BracketFirst` | doc/src/tools/doxygen_xml2qbk/quickbook_output.hpp:34-35 | a bracket is copied and moves the counter by one, down for `]` even below zero |
| `QbkEscape.EscapeLength` | doc/src/tools/doxygen_xml2qbk/quickbook_output.hpp:46-51 | output length is input length plus 5 per rewritten underscore |
| `QbkEscape.EscapeUnchangedIff` | doc/src/tools/doxygen_xml2qbk/quickbook_output.hpp:21-57 | the output equals the input exactly when no underscore is rewritten |
| `QbkEscape.EscapeWithoutUnderscore` | doc/src/tools/doxygen_xml2qbk/quickbook_output.hpp:21-57 | an input with no `_` comes back unchanged, from any counter |
| `QbkEscape.EscapeAppend` | doc/src/tools/doxygen_xml2qbk/quickbook_output.hpp:34-35 | without backslashes, a concatenation is escaped part by part, the second part from the counter the first leaves |
| `QbkEscape.MarkupKept` | doc/src/tools/doxygen_xml2qbk/quickbook_output.hpp:23-26 | a markup block `[t]` at depth 0 is copied unchanged, underscores included, and the depth is 0 again after it |
| `QbkEscape.EscapeAtDepth` | doc/src/tools/doxygen_xml2qbk/quickbook_output.hpp:46-51 | away from depth 0, plain text is copied unchanged |
| `QbkEscape.EscapeTopLevel` | doc/src/tools/doxygen_xml2qbk/quickbook_output.hpp:46-51 | at depth 0, plain text has every `_` replaced by `\u005f` |
| `TemplateParameters.RemoveTemplateParameters` | doc/src/tools/doxygen_xml2qbk/quickbook_output.hpp:642-674 | the `for (;;)` loop terminates (each pass moves `i` past one angle bracket) and returns `Removed(name)` |
| `TemplateParameters.RunSkipMany` | doc/src/tools/doxygen_xml2qbk/quickbook_output.hpp:649-652 | the loop's jumps skip angle-free text without effect |
| `TemplateParameters.RunAtEnd` | doc/src/tools/doxygen_xml2qbk/quickbook_output.hpp:652-656 | with no angle bracket left, the loop ends with the text from `prev_i` appended |
| `TemplateParameters.InsideBlock` | doc/src/tools/doxygen_xml2qbk/quickbook_output.hpp:657-670 | inside a balanced block, nothing is written and the loop leaves with `prev_i` just past the block's `>` |
| `TemplateParameters.OpenBlock` | doc/src/tools/doxygen_xml2qbk/quickbook_output.hpp:657-670 | an outermost block appends the copied prefix and `<...>` once, however deeply it nests |
| `TemplateParameters.NoTemplateParameters` | doc/src/tools/doxygen_xml2qbk/quickbook_output.hpp:642-674 | a name with no `<` or `>` is returned unchanged |
| `TemplateParameters.OneBlockCollapses` | doc/src/tools/doxygen_xml2qbk/quickbook_output.hpp:642-674 | `prefix<body>suffix`, with a balanced body and angle-free ends, becomes `prefix<...>suffix`; nested blocks collapse into it |
| `TemplateParameters.TwoBlocks` | doc/src/tools/doxygen_xml2qbk/quickbook_output.hpp:661 | with two top-level blocks, the text copied before the second `<...>` is `substr` with the middle's end position as its count: the middle, the second block's `<` and whatever follows, up to that many characters |
| `TemplateParameters.SecondBlockExample` | doc/src/tools/doxygen_xml2qbk/quickbook_output.hpp:661 | `a<b>::c<d>` becomes `a<...>::c<d><...>` |
| `TemplateParameters.UnclosedBlockRepeats` | doc/src/tools/doxygen_xml2qbk/quickbook_output.hpp:652-661 | a `<` that is never closed gets its `<...>`, and then the whole name is appended again from `prev_i` = 0: `a<b` becomes `a<...>a<b` |
| `QbkNames.ToSectionName` | doc/src/tools/doxygen_xml2qbk/quickbook_output.hpp:272-276 | a section name holds no upper-case letter |
| `QbkNames.SectionNameHasNoScope` | doc/src/tools/doxygen_xml2qbk/quickbook_output.hpp:272-276 | a section name never contains `::` |
| `QbkNames.NoColonPairAfterReplace` | doc/src/tools/doxygen_xml2qbk/quickbook_output.hpp:275 | after `::` becomes `_`, no two neighbouring colons are left, even for runs of three or more colons |
| `QbkNames.SectionNameOfQualified` | doc/src/tools/doxygen_xml2qbk/quickbook_output.hpp:272-276 | each `::` of a qualified name becomes exactly one `_`, then the name is lower-cased |
| `QbkNames.BracketEscaped` | doc/src/tools/doxygen_xml2qbk/quickbook_output.hpp:676-679 | the intended escaping: length grows by the number of brackets, every bracket has a backslash in front of it, and the text does not start with a bracket |
| `QbkNames.ReplaceBrackets` | doc/src/tools/doxygen_xml2qbk/quickbook_output.hpp:676-679 | `replace_brackets` adds one character per bracket, and dropping the backslash before each `[` and `]` gives the input back |
| `QbkNames.ReplaceBracketsEscapes` | doc/src/tools/doxygen_xml2qbk/quickbook_output.hpp:676-679 | `replace_brackets`, two `replace_all_copy` passes, puts a backslash before every `[` and `]` and keeps all other characters in order |
| `QbkNames.BracketEscapesRoundTrip` | doc/src/tools/doxygen_xml2qbk/quickbook_output.hpp:676-679 | dropping the backslash from each `\[` and `\]` gives the original text back |
| `QbkNames.NamespaceSkippedPrefix` | doc/src/tools/doxygen_xml2qbk/quickbook_output.hpp:302-308 | a name that starts with the skipped namespace, and does not contain it elsewhere, loses that prefix |
| `QbkNames.NamespaceSkippedAbsent` | doc/src/tools/doxygen_xml2qbk/quickbook_output.hpp:302-308 | a name comes back unchanged when the namespace is empty or the name does not contain it |
| `QbkNames.NamespaceSkipped` | doc/src/tools/doxygen_xml2qbk/quickbook_output.hpp:302-308 | skipping the namespace never makes a name longer |
| `QbkNames.OutputIfDifferent` | doc/src/tools/doxygen_xml2qbk/quickbook_output.hpp:310-316 | the result is empty exactly when both strings are equal, and otherwise it is the first followed by a space |
| `QbkNames.IndextermParts` | doc/src/tools/doxygen_xml2qbk/quickbook_output.hpp:323-336 | a name with `::` splits into colon-free terms; any other name is one term |
| `QbkNames.IndextermPartsOfQualified` | doc/src/tools/doxygen_xml2qbk/quickbook_output.hpp:323-332 | `a::b::c` with non-empty, colon-free parts is indexed under exactly `a`, `b`, `c`, in order |
| `QuickbookOutput.TemplateParameterList` | doc/src/tools/doxygen_xml2qbk/quickbook_output.hpp:75-89 | the template list is empty exactly when there are no template parameters |
| `QuickbookOutput.WriteTemplateParameterList` | doc/src/tools/doxygen_xml2qbk/quickbook_output.hpp:61-90 | appends `template<`, the full types with ` = default` only when shown and present, the separator (`", "`, or `",\n"` and nine spaces when multiline with more than two), then `>` and a newline; nothing for an empty list |
| `QuickbookOutput.DefaultsHidden` | doc/src/tools/doxygen_xml2qbk/quickbook_output.hpp:83-84 | hiding defaults writes the list as if no parameter had a default |
| `QuickbookOutput.Offset` | doc/src/tools/doxygen_xml2qbk/quickbook_output.hpp:98-120 | the `offset` accumulator equals one plus the length of the head written for each function kind |
| `QuickbookOutput.Spaces` | doc/src/tools/doxygen_xml2qbk/quickbook_output.hpp:124 | `std::string(offset, ' ')` has `offset` characters, all spaces |
| `QuickbookOutput.ParameterList` | doc/src/tools/doxygen_xml2qbk/quickbook_output.hpp:143-150 | the list is empty only for a `#define` with no shown parameter; with no shown parameter any other kind gets `()`; otherwise it is parenthesised |
| `QuickbookOutput.WriteHead` | doc/src/tools/doxygen_xml2qbk/quickbook_output.hpp:98-120 | writes the head for the function kind and returns the `offset` the source computes |
| `QuickbookOutput.WriteParameterList` | doc/src/tools/doxygen_xml2qbk/quickbook_output.hpp:127-151 | appends the shown (non-skipped) parameters in order between `(` and `)`, separated by `after_parameter`, or the empty-list text |
| `QuickbookOutput.WriteSynopsis` | doc/src/tools/doxygen_xml2qbk/quickbook_output.hpp:93-156 | appends the function synopsis: backquotes, template list, head, parameter list, backquotes, two newlines |
| `QuickbookOutput.SkippedParametersHidden` | doc/src/tools/doxygen_xml2qbk/quickbook_output.hpp:129-142 | skipped parameters never reach the single-line synopsis: removing them beforehand gives the same text |
| `QuickbookOutput.SkippedParametersHiddenMultiline` | doc/src/tools/doxygen_xml2qbk/quickbook_output.hpp:122-142 | in the multiline synopsis the listed parameters are still exactly the shown ones: removing the skipped ones gives the same text when that does not move the count across the `2 <` test |
| `QuickbookOutput.SkippedParametersCountForSeparator` | doc/src/tools/doxygen_xml2qbk/quickbook_output.hpp:122-124 | the `2 < f.parameters.size()` test counts skipped parameters: with two shown and more in all, the two are separated by a line break and `offset` spaces, so the text is `offset` characters longer than without the skipped ones |
| `QuickbookOutput.ShownParametersMembers` | doc/src/tools/doxygen_xml2qbk/quickbook_output.hpp:132 | a parameter is listed exactly when it is in the input and not skipped |
| `QuickbookOutput.ShortListsOnOneLine` | doc/src/tools/doxygen_xml2qbk/quickbook_output.hpp:64-72 | with at most two parameters and two template parameters, the multiline synopsis is the one-line synopsis (lines 122-124 too) |
| `QuickbookOutput.WriteEnumSynopsis` | doc/src/tools/doxygen_xml2qbk/quickbook_output.hpp:159-179 | appends `enum name`, then ` {` and the values (each with ` = ` and its trimmed initializer when present) separated by `, ` and closed by `};`, then backquotes and two newlines |
| `QuickbookOutput.EnumInitializerTrimmed` | doc/src/tools/doxygen_xml2qbk/quickbook_output.hpp:166-169 | an initializer is written trimmed, so pre-trimming a non-blank initializer changes nothing |
| `QuickbookOutput.WriteMarkup` | doc/src/tools/doxygen_xml2qbk/quickbook_output.hpp:240-257 | appends each markup value of the requested type and order on its own line, in input order, then one blank line if any was written |
| `QuickbookOutput.MarkupEmptyIff` | doc/src/tools/doxygen_xml2qbk/quickbook_output.hpp:244-256 | nothing is written exactly when no markup has the requested type and order |
| `QuickbookOutput.MarkupLines` | doc/src/tools/doxygen_xml2qbk/quickbook_output.hpp:247-256 | a single matching markup is written as its value followed by two newlines |
| `QuickbookOutput.StringWithHeadingIfPresent` | doc/src/tools/doxygen_xml2qbk/quickbook_output.hpp:261-270 | nothing is written exactly when the contents are empty |
| `QuickbookOutput.WriteStringWithHeadingIfPresent` | doc/src/tools/doxygen_xml2qbk/quickbook_output.hpp:261-270 | appends the heading line, the escaped contents and a blank line when there are contents |
| `QuickbookOutput.HeadingPlainContents` | doc/src/tools/doxygen_xml2qbk/quickbook_output.hpp:264-268 | contents without underscores are written as they are under the heading |
| `QuickbookOutput.WriteShortOutput` | doc/src/tools/doxygen_xml2qbk/quickbook_output.hpp:280-300 | appends one entry per non-skipped parameter, two newlines, the returns block when there is a return description, and a newline |
| `QuickbookOutput.ShortOutputHidesSkipped` | doc/src/tools/doxygen_xml2qbk/quickbook_output.hpp:282-288 | skipped parameters never reach the short output |
| `QuickbookOutput.WriteIndexterm` | doc/src/tools/doxygen_xml2qbk/quickbook_output.hpp:318-344 | appends `'''`, one `<indexterm><primary>` entry per term, then `'''` and a newline |
| `QuickbookOutput.IndextermOfQualified` | doc/src/tools/doxygen_xml2qbk/quickbook_output.hpp:323-332 | a qualified name `a::b::c` gets one index entry per part, namespaces included, in order |
| `QuickbookOutput.IndextermPlain` | doc/src/tools/doxygen_xml2qbk/quickbook_output.hpp:334-343 | a name without `::` gets a single index entry for the whole name |
| `QuickbookOutput.ReturnsColumn` | doc/src/tools/doxygen_xml2qbk/quickbook_output.hpp:502 | the ` [Returns]` column is left out exactly for constructors and destructors |
| `QuickbookOutput.WriteFunctionTable` | doc/src/tools/doxygen_xml2qbk/quickbook_output.hpp:497-520 | appends the heading and table head, one row per function of the requested kind in input order (synopsis, brief, short output), then the closing `]` |
| `QuickbookOutput.OtherKindsIgnored` | doc/src/tools/doxygen_xml2qbk/quickbook_output.hpp:509 | a function of another kind adds nothing to the table |
| `QuickbookOutput.MatchingKindAppended` | doc/src/tools/doxygen_xml2qbk/quickbook_output.hpp:507-517 | a function of the requested kind adds its row after the rows of the functions before it |
| `QuickbookOutput.WriteIndexTable` | doc/src/tools/doxygen_xml2qbk/quickbook_output.hpp:719-749 | appends the table head, then for each listed function the row numbered by its position in the input (link, short synopsis, brief), then the closing `]` |
| `QuickbookOutput.WriteListedRow` | doc/src/tools/doxygen_xml2qbk/quickbook_output.hpp:731-745 | writes the row of function i only when everything is displayed or the kind matches |
| `QuickbookOutput.WriteIndexRow` | doc/src/tools/doxygen_xml2qbk/quickbook_output.hpp:735-744 | writes one index row, with the `[link path.prefix<i> ...]` wrapper only when an index id path is configured |
| `QuickbookOutput.IndexRowListed` | doc/src/tools/doxygen_xml2qbk/quickbook_output.hpp:733 | row i is written (non-empty) exactly when everything is displayed or function i has the requested kind |
| `QuickbookOutput.IndexRowsEmpty` | doc/src/tools/doxygen_xml2qbk/quickbook_output.hpp:729-746 | the table gets no row at all exactly when not everything is displayed and no function has the requested kind |
| `QuickbookOutput.IndexLinksDistinct` | doc/src/tools/doxygen_xml2qbk/quickbook_output.hpp:736-738 | with an index id path, different positions get different link targets |
| `QuickbookOutput.Header` | doc/src/tools/doxygen_xml2qbk/quickbook_output.hpp:208 | the header block is empty exactly when the location is empty |
| `QuickbookOutput.IncludingHeaders` | doc/src/tools/doxygen_xml2qbk/quickbook_output.hpp:210-219 | selects, in order, exactly the convenience headers that include the location |
| `QuickbookOutput.WriteHeader` | doc/src/tools/doxygen_xml2qbk/quickbook_output.hpp:204-237 | appends the heading, then the "Either (one of) ... Or" alternatives when some convenience header includes the location, then the include line and a blank line |
| `QuickbookOutput.HeaderWithoutAlternatives` | doc/src/tools/doxygen_xml2qbk/quickbook_output.hpp:221-235 | when no convenience header includes the location, only the heading and the direct include are written |
| `QuickbookOutput.WriteSynopsisShort` | doc/src/tools/doxygen_xml2qbk/quickbook_output.hpp:681-717 | appends the short head and the parameters that are neither skipped nor defaulted, each with template arguments collapsed, in `( , )`, or the empty-list text |
| `QuickbookOutput.WriteShortHead` | doc/src/tools/doxygen_xml2qbk/quickbook_output.hpp:683-700 | appends the bare name for constructors, members and free functions, `#define name` for a macro, and nothing for an unknown kind |
| `QuickbookOutput.WriteShortParameterList` | doc/src/tools/doxygen_xml2qbk/quickbook_output.hpp:702-717 | appends the parameters that are neither skipped nor defaulted, each with template arguments collapsed, between `(` and `)` separated by `, `, or the empty-list text |
| `QuickbookOutput.ShortDropsDefaults` | doc/src/tools/doxygen_xml2qbk/quickbook_output.hpp:705 | the short synopsis lists the parameters the full synopsis shows, minus those with a default |
| `QuickbookOutput.ShortTextPlain` | doc/src/tools/doxygen_xml2qbk/quickbook_output.hpp:707 | a parameter type without angle brackets is written as it is |

## Left out

- `includes` (lines 181-201) opens and reads a file. `WriteHeader` takes it as a predicate parameter `includes(filename, header)`, so any answer the file system could give is covered.
- `quickbook_output` for a function, an enumeration and a class, `quickbook_output_detail_function`, `output_paragraphs_note_warning`, `has_brief_description` and both `quickbook_output_alt`:
  - these assemble whole pages from the emitters modelled here, with console output and many further element fields;
  - they are not part of this model.
- `doxygen_elements.hpp` is not part of this model. Its records are reduced to the fields read here.
- `boost::to_lower_copy` and `boost::trim_copy` follow the C locale only: ASCII upper-case letters and the six ASCII white-space characters.
- Offset, AfterParameter and Run count characters, where `std::string::size()` and the positions of `find` count bytes. For text with multi-byte UTF-8 characters the source's `offset` padding (lines 103-115) and the `substr` count at line 661 would differ from the model's.
- `std::endl` is modelled as a newline. Its flush is not modelled.
- Integer widths are not modelled:
  - the `int` bracket counter of `qbk_escaped` and `blocks_counter` are unbounded;
  - `unsigned offset` and the `size_t` positions are naturals;
  - `std::string::npos` is the string's length. Every comparison and every `substr` count the loop makes keeps its meaning with it.
- `WriteFunctionTable` has no `config` parameter. The source takes one at line 500 but never reads it.
- The other repository files are outside this core:
  - the spherical segment-intersection test scaffolding, which uses floating-point tolerances and external strategies;
  - the geographic box-to-box cross-track distance adapter, which forwards to code not shown and works in floating point.

