# VCalendar core in Dafny

This project models the C core of VCalendar, a command-line tool for iCalendar (RFC 5545) files.

The reading side, `calutil.c`, does four things:
- `readCalLine` unfolds content lines.
- `parseCalProp`, `parseParams` and `createNode` split a line into a property, its parameters and their values.
- `readCalComp` builds the tree of components.
- `readCalFile` then applies the whole-calendar checks: `checkNoCal`, `checkBadVer` and `checkProd`.

The tool side, `caltool.c`, provides these operations:
- `writeCalComp` writes a tree back out, folding long lines at `FOLD_LEN` = 75 octets.
- `calInfo` prints the counts, the date range and the sorted organizers.
- `calExtract`, in its X-property mode, prints the sorted X- property names.
- `calFilter` keeps components by kind and by date.
- `calCombine` merges two calendars.

Each module is one file and follows one part of the C:

| module | models |
|---|---|
| `CalTypes` (`cal_types.dfy`) | the data model of `calutil.h`: `Param`, `Property`, `Component`, `CalError`, `CalStatus`, `FOLD_LEN`, `VCAL_VER` |
| `LinkedList` | the `next`-linked parameter and property lists, and `addParamNode` / `addPropNode` / `countParams` |
| `Folding` | the folding loop of `writeCalComp` |
| `LineReader` | `readCalLine` |
| `PropParser` | `parseCalProp`, `parseParams`, `createNode`, `validateParams` |
| `PropText` | the text `writeCalComp` gives a property, and what the parser makes of that text |
| `TreeBuilder` | `readCalComp`, `readCalFile` and the three checks |
| `Writer` | `writeCalComp` |
| `RoundTrip` | reading back what `writeCalComp` wrote |
| `SortedNames` | `strcmp`, `qsort` and the print-each-run-once loop shared by `sortedCommonNames` and `calExtract` |
| `Queries` | the count functions, `calInfo`, `sortedCommonNames`, and `calExtract` for X- properties |
| `Transform` | `calFilter` and `calCombine` |

Most operations work on immutable trees and return what the C writes to its output file, as a string. Alongside it they return the `CalStatus` that carries the module-level line counter. The unread part of the input stream is a string argument, and the line counter is an explicit integer.

Two functions stand in for the C library's date handling:
- `key: string -> int` stands for `mktime(strptime(value))`.
- `show: string -> string` stands for `strftime` with the tool's date format.

Both are parameters, so every property is proved for every choice of them.

In these places the C behaves differently from what its comments and RFC 5545 suggest; the model follows the C:
- **Missing CRLF.** `readCalComp` ignores the status `readCalLine` returns. A missing CRLF therefore surfaces as NOCAL (before the first BEGIN) or BEGEND, never as NOCRNL.
- **Root name is case-sensitive.** The value of the first BEGIN is compared with `VCALENDAR` case-sensitively.
- **Parameter values keep their case.** Parameter values are stored as written, not upper-cased.
- **Only `VERSION:2.0` counts.** `checkBadVer` counts only VERSION properties whose value is `2.0`. A VERSION with another value is passed over.
- **BEGIN lines are not counted on output.** The line counter of `writeCalComp` counts every property line and every END line, but not the BEGIN lines.
- **Organizers and dates come from different levels.** `sortedCommonNames` collects organizers from the calendar's own properties as well as from components and subcomponents. It looks for dates only in components and subcomponents.
- **`calInfo` counts calls, not lines.** Its line counter counts `fprintf` calls: the seven count lines, then three for a date range.

## Model

| member | source | states |
|---|---|---|
| LinkedList.AddNode | calutil.c:1358-1375 | appending a list to another gives the two element sequences one after the other; appending to an empty list gives the added list; the head of a non-empty list stays |
| LinkedList.AddOneNode | calutil.c:1377-1394 | adding one property node appends exactly that property and raises the node count by one |
| LinkedList.CountNodes | calutil.c:1176-1192 | countParams is the length of the list and is zero only for the empty list |
| Folding.FoldSegmentsShape | caltool.c:2599-2675 | a line of at most 75 octets is written as is; a longer one starts with its first 75 octets, and no physical line is longer than 75 octets |
| Folding.UnfoldFold | caltool.c:2599-2675 | removing each CRLF and the space after it from the folded text gives back the original line |
| Folding.FoldLine | caltool.c:2599-2693 | the folding loop writes the folded text of the line, with CRLF after each piece, and counts one line per physical line |
| LineReader.ReadCalLine | calutil.c:678-863 | a line is returned only with OK, is non-blank and holds no CR or LF; NOCRNL returns no line; the rest of the input is a strict suffix; the line range never goes backwards |
| LineReader.ReadFoldedLine | calutil.c:719-774 | reading the folded text of a non-blank line gives back that line; the range covers all its physical lines |
| LineReader.ReadUnfoldedLine | calutil.c:719-774 | a line ended by CRLF and not followed by a space or tab is returned whole, one line later |
| LineReader.CrLfFolds | calutil.c:724-732 | CRLF followed by a space or tab joins the next physical line to the current one and counts a folded line |
| LineReader.BareLineFeed | calutil.c:776-788 | an LF without CR before it ends reading with NOCRNL |
| LineReader.LoneCarriageReturn | calutil.c:790-802 | a CR followed by anything but LF ends reading with NOCRNL |
| LineReader.LastLineUnterminated | calutil.c:815-839 | a non-blank last line without CRLF is still returned with OK |
| LineReader.BlankLineKept | calutil.c:756-773 | a whitespace-only line is not returned, and its whitespace stays at the front of the next line |
| PropParser.CreateNode | calutil.c:1220-1356 | the parameter name is upper-cased and no longer than the text; empty text gives a parameter with no name and no values |
| PropText.CreateNodeSplit | calutil.c:1240-1356 | for a name and values free of unquoted separators, createNode of NAME=v1,v2,... gives the upper-cased name and exactly the values between the unquoted commas, verbatim, quotes included |
| PropText.CreateNodeNoName | calutil.c:1240-1356 | text without an unquoted '=' gives a parameter with an empty name whose values are the comma-separated pieces |
| PropText.CreateNodeSeveralEquals | calutil.c:1258-1312 | with two unquoted '=' signs the name is the upper-cased first octets of the whole text, as many as lie between the two signs, and the value is what follows the second one |
| PropParser.ParseParams | calutil.c:1061-1174 | parameter text gives at least one parameter exactly when it is non-empty |
| PropParser.ParseParamsPieces | calutil.c:1061-1174 | parseParams is createNode applied to each piece of the text split at every ';' before the first '"', an empty last piece left out |
| PropParser.PiecesOfJoin | calutil.c:1079-1171 | joining pieces free of ';' and '"' with ';' and splitting again gives back the pieces, as long as the last one is not empty |
| PropParser.ValidateLoop | calutil.c:1194-1218 | true exactly when every parameter has a non-empty name without a space |
| PropParser.FirstSep | calutil.c:904-928 | the name ends at the first ':' or ';' of the line |
| PropParser.ParseCalProp | calutil.c:865-1059 | a parsed property has the upper-cased text before the first separator as its name and valid parameters; a line that starts with a separator or has none is SYNTAX |
| PropParser.ParseCalPropSpec | calutil.c:865-1059 | parseCalProp agrees on every line with the section-by-section reading: after ':' the rest of the line is the value, verbatim; after ';' every segment ended by an unquoted ';' or ':' goes to parseParams, a segment never closed by ':' is dropped with an empty value, parameters failing validateParams give SYNTAX, and a closed section with no parameter gives SYNTAX |
| PropParser.UnclosedSegmentDropped | calutil.c:865-1059 | NAME;SEG with no ':' gives the property NAME with no parameters and an empty value |
| PropParser.EmptySectionSyntax | calutil.c:865-1059 | NAME;:VALUE is SYNTAX |
| PropParser.NamelessParamSyntax | calutil.c:865-1059 | NAME;SEG:VALUE with no '=' in SEG is SYNTAX, because the parameter has an empty name |
| PropText.CreateNodeRoundTrip | calutil.c:1220-1356 | createNode of the text writeCalComp writes for a well-formed parameter, plain or DQUOTE-quoted values alike, gives back that parameter |
| PropText.ParseParamsParam | calutil.c:1061-1174 | parseParams of the text of one well-formed parameter, quoted values included, gives exactly that parameter |
| PropText.WfParamsValid | calutil.c:1194-1218 | every well-formed parameter list passes validateParams |
| PropText.ParseCalPropRoundTrip | calutil.c:865-1059 | parseCalProp of the content line writeCalComp builds for a well-formed property, with plain or DQUOTE-quoted parameter values, gives back that property |
| TreeBuilder.ChildName | calutil.c:539-546 | as written, a nested component keeps the name its BEGIN gave it; with the fix the name is upper-cased |
| TreeBuilder.ReadBody | calutil.c:443-467 | no next line (end of input or NOCRNL) gives BEGEND on the line reached; a line parseCalProp rejects gives SYNTAX on that line; the component is left as it was in both cases |
| TreeBuilder.OnBegin | calutil.c:509-566 | a BEGIN at depth 3 gives SUBCOM on its line with the component unchanged; a child that does not read back with OK passes its status up |
| TreeBuilder.OnEnd | calutil.c:568-635 | END closes the component with OK exactly when its upper-cased value is the component's name and the component is not empty; a matching END of an empty component gives NODATA; any other END gives BEGEND; all on the END's line |
| TreeBuilder.ReadBodyResult | calutil.c:428-676 | reading a component's body stops at a suffix of the input, ends in one of readCalComp's statuses, and on OK closes a non-empty component that extends the one it started from |
| TreeBuilder.OnBeginResult | calutil.c:509-566 | after a nested BEGIN, reading goes on to a suffix of the input with one of readCalComp's statuses, and on OK the parent is closed and extends what it held, the child appended |
| TreeBuilder.CheckNoCal | calutil.c:233-257 | true exactly when some component or subcomponent name starts with 'V' |
| TreeBuilder.CheckBadVer | calutil.c:259-299 | true exactly when there is exactly one VERSION property with value 2.0 |
| TreeBuilder.CheckProd | calutil.c:301-341 | true exactly when there is exactly one PRODID property |
| TreeBuilder.CheckCalendar | calutil.c:363-425 | the checks run in order: no V component gives NOCAL, then anything but one VERSION:2.0 gives BADVER, then anything but one PRODID gives NOPROD, all on the last line read; a valid calendar followed by another content line gives AFTEND on that line, and otherwise OK with the tree built |
| TreeBuilder.ReadDocument | calutil.c:343-426 | input with no content line gives NOCAL; a first line parseCalProp rejects gives SYNTAX; a first line other than BEGIN:VCALENDAR gives NOCAL; otherwise the outcome is the root's; a tree is returned exactly on OK and it is a valid calendar |
| TreeBuilder.ReadRoot | calutil.c:360-425 | a body that fails (SYNTAX, SUBCOM, NODATA, BEGEND) fails readCalFile with that same status; a body read with OK goes on to the whole-calendar checks |
| TreeBuilder.ReadCalFile | calutil.c:343-426 | with the child-name fix: the NOCAL and SYNTAX cases of the first line, then the root's outcome; a returned calendar is valid and all its component names are upper case |
| TreeBuilder.ReadCalFileAsWritten | calutil.c:343-426 | the reader as written has the same first-line cases and returns only valid calendars |
| TreeBuilder.LowerChildNeverClosesAsWritten | calutil.c:571-575 | as written, a nested component opened with a name that is not all upper case can never be closed: every END gives BEGEND |
| TreeBuilder.ChildClosesWithFoldedNames | calutil.c:571-575 | with the fix, END closes a non-empty nested component exactly when its value names it up to case |
| Writer.BuildPropLine | caltool.c:2559-2597 | the buffer holds the name, each parameter as NAME=v1,v2 separated by ';', then ':' and the value |
| Writer.WriteProps | caltool.c:2554-2696 | the properties are written in list order, each folded, and the counter advances by their physical lines |
| Writer.WriteCalComp | caltool.c:2530-2728 | the output is BEGIN, the properties, the children in order and END; the counter advances by every line except the BEGIN lines |
| RoundTrip.DocumentWritten | caltool.c:2530-2728 | readCalFile, with or without the child-name fix, of what writeCalComp writes for a well-formed calendar returns that same calendar with OK on its last line |
| RoundTrip.ReadWritten | caltool.c:2530-2728 | both readCalFile as written and the name-fixed reader return the written calendar with OK, quoted parameter values included |
| RoundTrip.ReadComponent | calutil.c:428-676 | reading the body writeCalComp writes for a well-formed component, as written or with the child-name fix, rebuilds that component with OK on its END line and leaves the rest of the input untouched |
| SortedNames.Strcmp | caltool.c:1554-1561 | the comparison is zero exactly for equal strings |
| SortedNames.StrcmpFlip | caltool.c:1554-1561 | swapping the operands negates the comparison |
| SortedNames.StrcmpTrans | caltool.c:1554-1561 | the order compareStrings gives qsort is transitive |
| SortedNames.NotAfterTotal | caltool.c:1554-1561 | any two names are ordered one way or the other |
| SortedNames.SortSorted | caltool.c:1484-1486 | the sorted names are in strcmp order and are a permutation of the names collected |
| SortedNames.SortedUnique | caltool.c:1484-1486 | two sorted permutations of the same names are the same list, so the order qsort leaves equal names in does not matter |
| SortedNames.StrictlySortedUnique | caltool.c:1501-1536 | a strictly sorted list is determined by the names it holds |
| SortedNames.ShownSorted | caltool.c:1501-1536 | printing each run of a sorted list once gives a strictly sorted list of exactly the names in it, less the empty one when empty names are skipped |
| SortedNames.PrintDistinct | caltool.c:1501-1536 | the loop with its index jumps prints the first name of each run; for sorted input the result is strictly sorted and holds exactly the input's names |
| Queries.CountVEvent | caltool.c:1616-1632 | zero exactly when no top-level component is a VEVENT; never more than the number of components |
| Queries.CountToDo | caltool.c:1634-1650 | zero exactly when no top-level component is a VTODO |
| Queries.CountOther | caltool.c:1652-1668 | zero exactly when every top-level component is a VTODO or a VEVENT |
| Queries.CountKinds | caltool.c:1616-1668 | events, todos and others add up to the number of top-level components |
| Queries.CountCompsAppend | caltool.c:1616-1668 | counting over two component arrays one after the other adds their counts |
| Queries.CountSubComponents | caltool.c:1598-1614 | zero exactly when no top-level component has subcomponents; at least the subcomponents of each one |
| Queries.CountProperties | caltool.c:1582-1596 | zero exactly when no component below the calendar has a property |
| Queries.PropsBelowAppend | caltool.c:1582-1596 | properties below two component arrays one after the other add up |
| Queries.DecimalRoundTrip | caltool.c:779 | the decimal text printed by "%d" for a count reads back as that count |
| Queries.DecimalInjective | caltool.c:779 | different counts print differently |
| Queries.NounAgrees | caltool.c:776-988 | the singular noun is printed exactly when the count is 1, the plural otherwise |
| Queries.InfoCounts | caltool.c:771-988 | the counts calInfo prints: the lines read, the components, then events, todos and others adding up to the components, the subcomponents, and all properties including the calendar's |
| Queries.CalInfo | caltool.c:771-993 | the seven count lines come first, then the date range and organizers of sortedCommonNames with the counter seven lines on; the range comes from the scan as written or the corrected one |
| Queries.BelowMembers | caltool.c:1056-1362 | a name is collected from the components and subcomponents exactly when one of their properties yields it |
| Queries.ScanKeeps | caltool.c:1056-1177 | the corrected date scan keeps the oldest and newest dates seen, with a newest only once two different dates were seen |
| Queries.ScanFindsRange | caltool.c:1056-1362 | over all dates, the corrected scan reports the earliest and the latest date, or no dates |
| Queries.ScanAsWrittenOldest | caltool.c:1091-1131 | as written, the scan still always reports the earliest date as the oldest |
| Queries.ScanAsWrittenFindsOldest | caltool.c:1091-1131 | as written, over all dates, the scan reports no dates exactly when there are none, and otherwise a date seen that is no later than any other |
| Queries.DateSpanFinds | caltool.c:1056-1362 | whichever scan is used, the range starts with the earliest date; the corrected scan also ends it with the latest |
| Queries.ScanAsWrittenLosesNewest | caltool.c:1118-1131 | as written, a date earlier than the only one seen so far replaces it, so the later one is lost as the newest |
| Queries.CNValues | caltool.c:1027-1050 | the names are exactly the values of the CN parameters |
| Queries.OrganizersOf | caltool.c:1019-1053 | the names are exactly the CN values of ORGANIZER properties |
| Queries.OrganizersListed | caltool.c:1468-1536 | the organizers printed are strictly sorted and are exactly the CN values of ORGANIZER properties anywhere in the calendar |
| Queries.SortedCommonNames | caltool.c:995-1552 | the date text starts with the earliest date, and with the corrected scan ends with the latest; then "No organizers" or each organizer once in strcmp order, with the counter advanced by one per fprintf |
| Queries.XNamesOf | caltool.c:1686-1711 | the names collected are exactly the property names that start with "X-" |
| Queries.XChildrenNames | caltool.c:1713-1866 | apart from the empty placeholders, the names collected from the components and subcomponents are the X- property names among them |
| Queries.CollectedNames | caltool.c:1686-1866 | a non-empty name is collected exactly when it names an X- property of the calendar, a component or a subcomponent |
| Queries.XPropsListed | caltool.c:1925-1968 | the names printed are strictly sorted and are exactly the X- property names in the calendar |
| Queries.ExtractXProps | caltool.c:1670-1983 | calExtract for X- properties prints each X- property name once in strcmp order, one per line, and advances the counter by the lines printed |
| Transform.Keep | caltool.c:1999-2031 | the number of components kept is the number that pass the test |
| Transform.KeepMembers | caltool.c:1999-2031 | a component is kept exactly when it is in the array and passes the test |
| Transform.KeepAppend | caltool.c:1999-2031 | filtering two arrays one after the other keeps the same as filtering each |
| Transform.ShiftDown | caltool.c:2005-2009 | removing element i shifts the later elements of the first n down one slot and leaves the earlier ones |
| Transform.RemoveFailing | caltool.c:1999-2031 | the in-place removal loop leaves exactly the passing components, in their original order |
| Transform.DateInRange | caltool.c:2043-2080 | true exactly when some COMPLETED, DTEND, DUE or DTSTART property has a date within the bounds |
| Transform.ChildDateInRange | caltool.c:2082-2125 | true exactly when some subcomponent has such a date |
| Transform.RemoveFiltered | caltool.c:1999-2358 | the kind loop and then, when a bound is given, the date loop leave the components the filter keeps |
| Transform.CalFilter | caltool.c:1985-2373 | the filtered calendar is written; when no component is left the status is NOCAL at lines 0 to 0, otherwise writeCalComp's |
| Transform.FilteredMembers | caltool.c:1999-2358 | a component survives exactly when it is a top-level component of the asked kind and, when a bound is given, has a date within the bounds in itself or a subcomponent |
| Transform.FilterEventsCounts | caltool.c:2017-2031 | filtering for events keeps every VEVENT and nothing else |
| Transform.FilterToDosCounts | caltool.c:2002-2015 | filtering for todos keeps every VTODO and nothing else |
| Transform.FilterValid | caltool.c:2360-2370 | when a component survives filtering by kind, the written calendar is still one readCalFile accepts |
| Transform.FilterReadsBack | caltool.c:2360-2370 | what calFilter writes reads back with OK as the filtered calendar, through readCalFile as written and with the child-name fix |
| Transform.DropVersionProdId | caltool.c:2395-2425 | what is left of the second property list is its length less its VERSION and PRODID properties |
| Transform.DropMembers | caltool.c:2395-2425 | exactly the properties other than VERSION and PRODID are left |
| Transform.CombineProps | caltool.c:2390-2425 | the merged property list is the first list followed by the second list without its VERSION and PRODID |
| Transform.CalCombine | caltool.c:2375-2443 | the merged calendar is written, with writeCalComp's status |
| Transform.CombineCounts | caltool.c:2427-2440 | with one VERSION and one PRODID in the second calendar, the merge has n1 + n2 - 2 properties and c1 + c2 components, and every count calInfo prints adds up |
| Transform.CombineValid | caltool.c:2375-2443 | merging two calendars readCalFile accepts gives one it accepts: the first calendar's VERSION and PRODID are the only ones |
| Transform.CombineReadsBack | caltool.c:2375-2443 | what calCombine writes reads back with OK as the merged calendar, through readCalFile as written and with the child-name fix |

## Left out

- `main`, the command-line handling and `wrapper.c` / `xcal.py`: they are callers of the core, not part of it.
- File I/O: the input stream is a string and the output file is the returned text. IOERR is never produced, because a write to a string cannot fail.
- Memory management (`malloc`, `realloc`, `free`, `freeCalComp`): the trees are immutable values.
- `MAXSTRINGLENGTH` and `MAXARRAYSIZE`: strings and arrays are unbounded, so the buffer overflows of very long lines are not modelled.
- `fgetc` returning the byte 0xFF as EOF on platforms with signed `char`: characters are Unicode values, and the end of input is the end of the string.
- END as the very first content line: readCalComp then compares with a NULL name, which is undefined behaviour. ReadCalFile requires that the first line is not an END.
- Date parsing and printing: `strptime`, `mktime` and `strftime` are the `key` and `show` parameters.
- calExtract's event mode (OEVENT): it depends on `strftime` text matching and on date sorting with `compareDates`.
- CombineProps: it models the intended result, with every VERSION and PRODID of the second calendar dropped. Two parts of the C are not followed:
  - The C's unlinking loop can step over the second of two adjacent nodes with the same name.
  - After writing, the C relinks the dropped nodes into the caller's list by pointer surgery.
- CalCombine: `nprops` is set to n1 + n2 - 2 whatever the second calendar holds. The model's property list has the true length, and CombineCounts states when the two agree.
- Transform.FilterValid: it is stated for the kind filters (OTODO and OEVENT). With OPROP the surviving components need not include one whose name starts with 'V'.
- ReadCalLine: a NUL octet ends the C string that readCalLine builds, so a line such as "\0X" is treated as blank and whatever follows the NUL is lost. The model keeps '\0' as an ordinary character.
- CreateNodeRoundTrip: well-formed values are plain (no unquoted '"', ',', ';', ':', '=' or line end) or DQUOTE-quoted. A value with a bare '=' is not read back as written: createNode measures the name up to the last unquoted '=' but copies it from the start of the text, as CreateNodeSeveralEquals states.
- The depth counter of readCalComp is a static variable in the C; here it is an argument. The C does not always lower it on an error return, but it resets it at every root BEGIN, so this leak is not modelled.

## Findings

| source | as written | input that shows it | evidently intended | confidence | as-written member | corrected member |
|---|---|---|---|---|---|---|
| calutil.c:543-544 | a nested component's name is copied from its BEGIN value without `toupper`, but END values are upper-cased before the comparison at line 575 | `BEGIN:VCALENDAR`, `BEGIN:vevent`, `UID:1`, `END:vevent`: the END is compared as `VEVENT` with the name `vevent`, giving BEGEND | names are upper-cased on BEGIN as they are on END (calutil.h says names are upper case) | not executed | TreeBuilder.LowerChildNeverClosesAsWritten | TreeBuilder.ChildClosesWithFoldedNames |
| caltool.c:1118-1131 | once only an oldest date is known, an earlier date replaces it without the old one becoming the newest | dates "20240105" then "2024" (keyed by length): as written the range is "From 2024 to 2024", so the later date is lost | an earlier date becomes the oldest and the previous oldest becomes the newest | not executed | Queries.ScanAsWrittenLosesNewest | Queries.ScanFindsRange |
