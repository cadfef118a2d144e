# A verified model of parts of GNU Bash 5.3

Parts of Bash's sources, each written in Dafny in the form it has in C,
and what they promise proved for all inputs or all runs.

- **Brace expansion** (`Brace*.dfy`): the scanner that looks for matching
  braces, commas and `..`, the expansion of nested `{a,b}` and `{x..y..i}`
  text, and its inverse in completion, which compresses a sorted list of names
  into one brace expression.
- **Arithmetic** (`Arith*.dfy`): the evaluator that reads, parses and evaluates
  an expression in one pass over mutable globals, with suppressed evaluation
  for operands that are not selected, and variables whose text is itself an
  expression. `ArithSyntax` defines it; the class `Evaluator` is the original's
  code over its globals, every method proved to do what the definition says;
  `ArithCorrect` and `ArithStore` say what it computes from the text of any
  tree, however spaced; `ArithTexts` and `ArithErrors` what short and wrong
  texts come to.
- **Control flow** (`Shell*.dfy`): sequences, `&&`, `||`, `!`, groups, `if`,
  `while`, `until`, `for`, `case`, `break` and `continue`, and `set -e`. The
  class `Shell` keeps the counters and writes the flags as the original does;
  `ShellMeaning` is a structured semantics without either, and `ShellLaws` and
  `ShellRuns` say what its runs look like. A run meets an
  arbitrary sequence of external answers: exit statuses of commands, lengths of
  word lists, loop variables with bad names, refused assignments, and patterns
  that match or not.
- **Sparse arrays** (`Sparse*.dfy`, `DirectArrays.dfy`): the circular list with
  a roving pointer, and the directly indexed second implementation; both answer
  as the same finite map.
- **Hash tables** (`Hash*.dfy`, `AssocArrays.dfy`): bucket chains relinked in
  place when the table grows, copied and listed in one order, and associative
  arrays over them.
- **Alias expansion of a line** (`Alias*.dfy`) and **the list of
  coprocesses** (`CoprocLists.dfy`).

Where the code is at odds with what one would expect of it, the model follows
the code:

- The loop for `* / %` goes on early for the one remainder that would overflow
  (bash/expr.c:922-926) and so leaves the previous token as it was. The text
  `a % b += 5` is then accepted, and assigns to `b`; suppressed, it is always
  rejected. `ArithRemainder` proves exactly when, for any left operand and any
  right-hand side, and that a text without a `%`, a name and an OP= in a row
  never parts the two.
- Unary plus and minus do set the previous token (bash/expr.c:1011-1016), so
  `+a = 5` is rejected.
- `continue 0` leaves every loop, as `break 0` does
  (bash/builtins/break.def:121-128).
- A `continue` in the test of an `until` ends that loop, because the test's
  status is looked at first (bash/execute_cmd.c:3825-3832).
- After a jump out of a clause that ends in `;;&`, the patterns of the later
  clauses are still expanded (bash/execute_cmd.c:3715-3762); only their actions
  are skipped.
- When the directly indexed array becomes empty, its first index becomes 0
  rather than -1 (bash/array2.c:680).

## Model

| member | source | states |
|---|---|---|
| BraceSyntax.Gobble | bash/braces.c:637-805 | the scan stays inside the text, and stops at the wanted character or at the end |
| BraceSyntax.Expand | bash/braces.c:103-293 | expansion ends on every text, unmatched braces included, and gives at least one word |
| BraceTrees.ScanWord | bash/braces.c:637-805 | scanning across the printed text of any tree comes out at the same depth, with nothing found inside it |
| BraceTrees.ExpandWord | bash/braces.c:103-365 | a word in normal form, its braces outside lists matched or not, printed and expanded, gives its meaning |
| BraceTrees.ExpandTree | bash/braces.c:103-365 | any tree of literals, juxtaposition and alternatives over plain characters, printed and expanded, gives its cross products and ordered unions; and with a lone {word} or unmatched braces, these stand for themselves and what is inside them is expanded |
| BraceTrees.NothingToExpand | bash/braces.c:759 | text with no comma and no double dot, braces matched or not, expands to itself |
| BraceTrees.QuotedKeeps | bash/braces.c:637-805 | text whose open braces are all quoted or escaped expands to itself |
| BraceTrees.IgnoredKeeps | bash/braces.c:637-805 | so does text with its one open brace at the start and white space or a closing brace after it |
| BraceExpansion.BraceGobbler | bash/braces.c:637-805 | the loop over level, quotes and commas computes the scan, and reports a hit exactly when it stopped before the end |
| BraceExpansion.BraceExpand | bash/braces.c:103-293 | the recursive code computes the expansion |
| BraceExpansion.ExpandAmbleText | bash/braces.c:299-365 | splitting at the separators outside inner braces computes the expansion of the slots |
| BraceExpansion.ArrayConcat | bash/braces.c:812-873 | the nested loops fill the product array with the cross product |
| BraceExpansion.CrossAt | bash/braces.c:812-873 | string i * n + j of the cross product is the i-th followed by the j-th |
| BraceExpansion.CrossLength | bash/braces.c:812-873 | the cross product has len1 * len2 strings |
| BraceSequences.MkSeq | bash/braces.c:372-476 | no sequence exactly when a difference or the increment's negation is out of range; otherwise floor(distance / increment) + 1 terms, the k-th being start + k * increment or start - k * increment, towards end |
| BraceSequences.FillTerms | bash/braces.c:408-474 | the running value stays in range, writes stay inside the storage, each slot holds its term |
| BraceSequences.StepsStayInside | bash/braces.c:377-403 | every term lies between start and end, and one more step would pass the end |
| Numerals.PaddedReadsBack | bash/braces.c:425-441 | a padded term has the wanted width and still denotes its number, sign included |
| BraceSequenceTexts.ExpandSequence | bash/braces.c:479-633 | a text {x..y} or {x..y..i}, the ends numerals in range with any sign and leading zeros, or letters, expands to that many terms, those, or to itself where a difference is out of range |
| BraceSequenceTexts.OnlySequences | bash/braces.c:479-633 | conversely brace text without commas, quotes and white space that does not stand for itself is such a sequence |
| BraceSequenceTexts.PaddedExactly | bash/braces.c:602-619 | terms are padded if and only if an end has a leading zero, to the length of the longer end |
| BraceSequenceTexts.TermsPadded | bash/braces.c:425-441 | between numerals the k-th word denotes its number, and where either end has a leading zero it is as long as the longer end |
| BraceSequenceTexts.TermsLetters | bash/braces.c:442-449 | between letters the k-th word is the one character at its place between them |
| BraceCompletion.GcdNeverGrows | bash/bracecomp.c:46-62 | along a list in the order of strcmp, or of the comparison used here, the prefix shared with the first name never grows |
| BraceCompletion.GroupShares | bash/bracecomp.c:84-98 | all names of a group share the prefix kept for it, and what follows stays sorted |
| BraceCompletion.GroupSplits | bash/bracecomp.c:84-118 | the inner call for a group of two or more always finds at least two groups |
| BraceCompletion.FindGroup | bash/bracecomp.c:86-98 | the inner loop finds the end of the group and its prefix |
| BraceCompletion.ReallyMungeBraces | bash/bracecomp.c:64-148 | the buffer built by appending, its last comma overwritten, is the compressed text |
| BraceCompletion.TreeIsMunge | bash/bracecomp.c:64-148 | the compressed text is the print of a tree that means the names without their shared prefix |
| BraceCompletion.MungeRoundTrip | bash/bracecomp.c:64-148 | expanding the compressed text of a list of plain names, sorted in either order, gives that list, in order |
| BraceCompletion.QsortedIsSorted | bash/bracecomp.c:150-170 | sorting gives the same names as often, first chars in order as signed values and then the names as strcmp has them |
| BraceCompletion.HighBytesFirst | bash/bracecomp.c:150-160 | names that begin with a byte from 128 on come before all others; otherwise the order is that of the bytes |
| BraceCompletion.OneArrangement | bash/bracecomp.c:150-160 | that order is total: no other arrangement of the names is sorted |
| BraceCompletion.HackBracesCompletion | bash/bracecomp.c:162-183 | the text put in place of the matches expands to exactly the matches, sorted where the code sorts them and otherwise as they come |
| ArithLexer.ConstantsReadBack | bash/expr.c:1551-1636 | every number, written in any base from 2 to 64 after `base#`, or in decimal, octal or hexadecimal, reads back as itself modulo 2^64 |
| ArithLexer.CaseIrrelevant | bash/expr.c:1606-1633 | up to base 36 the case of letters makes no difference |
| ArithLexer.ReadConstant | bash/expr.c:1551-1636 | the loop over the accumulator reads the constant |
| ArithValues.DivisionLaw | bash/expr.c:886-944 | quotient and remainder truncate and belong together; the one overflow gives INTMAX_MIN and 0 |
| ArithValues.Ipow | bash/expr.c:946-959 | repeated squaring is the power modulo 2^64, for every base and exponent |
| ArithSyntax.Subexpr | bash/expr.c:458-493 | evaluation ends for every text and every variables, and an error inside comes from a deeper context unless the stack is full |
| ArithSyntax.ReadTok | bash/expr.c:1318-1520 | reading a token never adds unread text, and restores depth and suppression |
| ArithSyntax.Exp | bash/expr.c:495-1123 | every level, if it succeeds, has read something and restores depth and suppression |
| ArithEvaluator.Evaluator.PushExp | bash/expr.c:266-286 | saves the context, or fails at 1024 |
| ArithEvaluator.Evaluator.PopExp | bash/expr.c:290-309 | restores the saved context |
| ArithEvaluator.Evaluator.ReadToken | bash/expr.c:1318-1520 | reads one token, evaluating a variable unless an assignment follows it |
| ArithEvaluator.Evaluator.StreVal | bash/expr.c:1149-1256 | the value of a variable's text, or 0 |
| ArithEvaluator.Evaluator.EvalSubexpr | bash/expr.c:458-493 | evaluates a text in a context of its own |
| ArithEvaluator.Evaluator.ExpComma | bash/expr.c:495-508 | agrees with the definition of its level |
| ArithEvaluator.Evaluator.ExpAssign | bash/expr.c:510-627 | agrees with the definition of its level |
| ArithEvaluator.Evaluator.ExpCond | bash/expr.c:629-674 | agrees with the definition of its level; the branch not selected is suppressed |
| ArithEvaluator.Evaluator.ExpLor | bash/expr.c:677-702 | agrees with the definition of its level; the right operand is suppressed when the left decides |
| ArithEvaluator.Evaluator.ExpLand | bash/expr.c:705-730 | the same for the logical AND |
| ArithEvaluator.Evaluator.ExpBinary | bash/expr.c:733-945 | the eight levels of binary operators agree with their definitions |
| ArithEvaluator.Evaluator.ExpPower | bash/expr.c:963-986 | agrees with the definition; its loop runs at most once, since the recursive call takes the rest of the chain |
| ArithEvaluator.Evaluator.ExpUnary | bash/expr.c:988-1021 | agrees with the definition of its level |
| ArithEvaluator.Evaluator.Exp0 | bash/expr.c:1023-1123 | agrees with the definition of operands |
| ArithEvaluator.Evaluator.EvalExp | bash/expr.c:416-456 | the entry point leaves an empty context stack, and the value or the failure and the variables of the definition |
| ArithCorrect.ParseChild | bash/expr.c:495-1123 | at any level, parsing the text of a subtree before any token that may follow it gives its meaning, or skips it when suppressed |
| ArithCorrect.EvaluateTree | bash/expr.c:416-1123 | from the text of any tree over the precedence table, with as few parentheses as it allows, and any number of blanks, none where the words do not merge, the evaluator computes the tree's left-to-right value and variables, or the same error; of AND, OR and conditional operators only the selected operand has effects |
| ArithTrees.TreeSpelled | bash/expr.c:1318-1520 | every tree has such a text |
| ArithReading.LexDigits | bash/expr.c:1406-1425 | a run of digits is read as a constant up to the first character that is not a letter, a digit, an underscore, # or @ |
| ArithReading.LexNameText | bash/expr.c:1344-1404 | a name is read up to the first character that is not a letter, a digit or an underscore |
| ArithReading.SignDoubled | bash/expr.c:1460-1495 | of two equal signs with no name on either side only the first is read |
| ArithTexts.Sums | bash/expr.c:864-884 | without blanks between them, two numbers and +, - or * give their sum, difference or product modulo 2^64 |
| ArithTexts.Comparisons | bash/expr.c:788-838 | a comparison of two numbers gives 1 where it holds and 0 otherwise |
| ArithTexts.Quotients | bash/expr.c:886-944 | quotient and remainder, or division by 0 |
| ArithTexts.Logic | bash/expr.c:677-730 | AND and OR of two numbers |
| ArithTexts.PowersAndCommas | bash/expr.c:495-508 | a power modulo 2^64, and the last operand of a comma |
| ArithTexts.Shifts | bash/expr.c:840-862 | shifts are products and quotients by powers of two |
| ArithTexts.Bitwise | bash/expr.c:733-786 | the bitwise operators work bit by bit on the 64-bit words |
| ArithTexts.Complement | bash/expr.c:988-1021 | the complement flips every bit |
| ArithErrors.StrayToken | bash/expr.c:458-493 | a closing parenthesis or a colon after a whole expression is a syntax error, after the expression has been evaluated |
| ArithErrors.UnclosedParenthesis | bash/expr.c:1060-1072 | a parenthesis that is not closed is an error |
| ArithErrors.MissingColon | bash/expr.c:629-674 | a question mark without a colon is an error, after the selected branch only has been evaluated |
| ArithErrors.MissingOperand | bash/expr.c:1117-1123 | an operator with nothing after it is an error |
| ArithErrors.NotAssignable | bash/expr.c:516-530 | a number cannot be assigned to |
| ArithStore.NumberText | bash/expr.c:458-493 | the text of a number is an expression with that value |
| ArithStore.EvaluateNumbers | bash/expr.c:416-1123 | over variables that hold numbers the result, the store and the error of any text of a tree are those of plain integer evaluation |
| ArithStore.ChainValue | bash/expr.c:1149-1256 | a variable that refers to a variable and so on has the value of the last, in a context as much deeper, or ends at the limit of 1024 contexts with nothing changed |
| ArithStore.NumberAtTheEnd | bash/expr.c:1149-1256 | a chain that ends in a number has that number if and only if the stack has room for the chain |
| ArithStore.EndlessReferences | bash/expr.c:266-309 | variables that refer only to each other, in whatever circles, end at the limit of 1024 contexts, with nothing changed |
| ArithSuppressed.Skim | bash/expr.c:510-1123 | a suppressed and a real run from the same place stay together, token by token, at every level |
| ArithRemainder.SuppressedIsSilent | bash/expr.c:909-922 | suppressed evaluation changes no variable, never divides by zero, meets no negative exponent and never recurses too deep |
| ArithRemainder.SuppressedReadsTheSame | bash/expr.c:629-730 | it reads exactly what real evaluation reads and fails exactly when that does, errors of evaluation aside, unless the text has a % and a name and an OP= in a row |
| ArithRemainder.RemainderParsed | bash/expr.c:510-941 | wherever an assignment may stand, `left % b = right` and `left % b OP= right`, for any operands and variables, have a stated outcome: an operand's error, division by 0, rejection, or b assigned |
| ArithRemainder.RejectedExactly | bash/expr.c:906-941 | it is rejected if and only if the operands have values, b is not 0, and the division is not that of INTMAX_MIN by -1 |
| ArithRemainder.RemainderAssigned | bash/expr.c:416-941 | as a whole text it has that outcome |
| ArithRemainder.RemainderSuppressed | bash/expr.c:906-941 | suppressed, it is always rejected, for any left operand and whatever follows the = or OP= |
| ShellMeaning.Meaning | bash/execute_cmd.c:634-1195 | a jump that leaves a command leaves at least one loop and no more than there are |
| ShellMeaning.Script | bash/execute_cmd.c:634-1195 | no jump leaves the outermost loop |
| ShellExecutor.Shell.Execute | bash/execute_cmd.c:634-1195 | the counters and flags produce the structured meaning; while a jump is under way nothing is done; flags are set only on the command's own parts, and only where they are ignored |
| ShellExecutor.Shell.ExecuteScript | bash/execute_cmd.c:634-1195 | after a whole script both counters are zero and the loop count is balanced |
| ShellExecutor.Shell.ExecuteSimple | bash/execute_cmd.c:904-1018 | a failure that nothing ignores ends the run |
| ShellExecutor.Shell.JumpBuiltin | bash/builtins/break.def:63-138 | the count asked for, at most the number of loops; all of them for a count below 1 |
| ShellExecutor.Shell.ExecuteSequence | bash/execute_cmd.c:2860-2891 | both commands in order, both ignored if the whole is ignored or negated |
| ShellExecutor.Shell.ExecuteConnection | bash/execute_cmd.c:2925-2967 | AND and OR lists with the left always ignored |
| ShellExecutor.Shell.ExecuteIf | bash/execute_cmd.c:3861-3889 | the test ignored, then the branch it selects |
| ShellExecutor.Shell.ExecuteWhileOrUntil | bash/execute_cmd.c:3795-3856 | the loop, with jumps out of the test as the code has them |
| ShellExecutor.Shell.ExecuteFor | bash/execute_cmd.c:2990-3143 | the check of the variable's name, then the loop over the words, a refused assignment ending it |
| ShellExecutor.Shell.ExecuteCase | bash/execute_cmd.c:3643-3769 | clauses with ;; and ;& and ;;& |
| ShellPlaces.ShieldedOnTheWay | bash/execute_cmd.c:650-656 | a place is shielded exactly if some command on the way to it is negated or some step goes into a test or left of an AND or OR |
| ShellPlaces.OnePlace | bash/execute_cmd.c:634-1195 | each simple command of a script has one place |
| ShellRuns.ScriptExits | bash/execute_cmd.c:1004-1018 | under set -e, in every run, a failing simple command ends the run if and only if its place is not in a test, not left of an AND or OR, and not under ! |
| ShellRuns.ExitHasReason | bash/execute_cmd.c:1004-1018 | and every early end has such a failure as its last event |
| ShellRuns.NoExitWithout | bash/execute_cmd.c:1004-1018 | without set -e no failure ends a run |
| ShellRuns.JumpHasReason | bash/execute_cmd.c:3014-3122 | a jump that leaves a command was raised by a break or continue inside it, leaves standing exactly as many loops as that asked for, and no command ran in between |
| ShellRuns.JumpGetsThere | bash/execute_cmd.c:3043-3122 | conversely a break or continue that asks for a loop outside the command always ends the command with that jump, to exactly that loop, and no command runs after it, except when set -e ends the run there |
| ShellLaws.IfSelects | bash/execute_cmd.c:3861-3889 | after a test with status 0 every command that runs is in the first branch, after any other status in the second; a simple command selected does run; and the status is the branch's |
| ShellLaws.ConnectionSelects | bash/execute_cmd.c:2925-2967 | the right side of an AND list runs if and only if the left succeeds, of an OR list if and only if it fails; otherwise the left has the last word |
| ShellLaws.SequenceRunsBoth | bash/execute_cmd.c:2860-2891 | the second command runs after the first, whatever its status |
| ShellLaws.NothingAfterJump | bash/execute_cmd.c:2860-2967 | after a jump or an exit in the first part nothing else of the command runs |
| ShellLaws.SimpleEnds | bash/execute_cmd.c:904-1018 | how a simple command, break and continue end, and the event of their running |
| ShellLaws.Negates | bash/execute_cmd.c:650-656 | where failures are ignored a negated command does what it does otherwise and has status 1 for 0 and 0 for anything else |
| ShellLaws.WhileRepeats | bash/execute_cmd.c:3795-3856 | a while loop repeats as long as its test has status 0, an until loop as long as it has not; its status is the last body's, 0 without one; a break or a continue of an outer loop ends it, a continue of its own goes on |
| ShellLaws.ForRepeats | bash/execute_cmd.c:3043-3122 | the body of a for loop runs once for each word, unless an assignment is refused or a jump leaves it |
| ShellLaws.BadName | bash/execute_cmd.c:3000-3012 | a for loop whose variable has a bad name fails without running its body |
| ShellLaws.CaseSelects | bash/execute_cmd.c:3643-3769 | the clause of the first pattern that matches is selected and its commands run; after ;; nothing else does |
| ShellLaws.CaseSelectsNone | bash/execute_cmd.c:3643-3769 | where none matches nothing runs and the status is 0 |
| ShellLaws.FallsThrough | bash/execute_cmd.c:3715-3762 | after ;& the next clause runs untested, after ;;& the search goes on |
| ShellLaws.Searches | bash/execute_cmd.c:3643-3769 | a search tries the patterns in order and stops at the first that matches |
| SparseArrays.SparseArray.constructor | bash/array.c:80-94 | an empty ring |
| SparseArrays.SparseArray.Insert | bash/array.c:515-596 | updates the map at the index; the problem exit is never taken; the ring stays linked both ways with increasing indices and exact bookkeeping |
| SparseArrays.SparseArray.Search | bash/array.c:541-592 | from wherever the roving pointer is, in either direction, the search finds the index or its neighbours and never meets the head |
| SparseArrays.SparseArray.Remove | bash/array.c:601-650 | removes the index from the map and returns its element, if any |
| SparseArrays.SparseArray.Reference | bash/array.c:656-703 | the value at the index, the map unchanged, the roving pointer again inside the list |
| SparseArrays.SparseArray.Flush | bash/array.c:96-112 | empties the map |
| SparseArrays.SparseArray.Copy | bash/array.c:124-142 | a new ring of new elements with the same entries |
| SparseArrays.SparseArray.Shift | bash/array.c:192-243 | drops the first n entries and lowers the other indices by n; what is dropped comes back as a list that ends in null, unchanged |
| SparseArrays.SparseArray.RShift | bash/array.c:250-281 | raises the indices by n and puts the value at 0 |
| SparseArrays.Replay | bash/array.c:515-703 | any run of operations on a new array answers as a finite map |
| SparseMaps.InsertedMap | bash/array.c:515-596 | an entry put between its neighbours updates the map and keeps the order |
| SparseMaps.RemovedMap | bash/array.c:601-650 | an entry taken out leaves the map without its index |
| SparseMaps.IndexAtLeast | bash/array.c:192-243 | the k-th index is at least k |
| SparseMaps.ShiftLeftSorted | bash/array.c:192-243 | shifting left keeps indices non-negative and increasing |
| SparseMaps.ShiftLeftMap | bash/array.c:192-243 | after shifting left every value but those of the n lowest indices is found n lower, and nothing else |
| SparseMaps.ShiftRightMap | bash/array.c:250-281 | after shifting right every value is found n higher, the new one at 0, and nothing else |
| SparseMaps.PushThenPop | bash/array.h:155-158 | push then pop restores every array |
| SparseMaps.PopThenPush | bash/array.h:155-158 | pop then push restores exactly those whose entry 0 was that value |
| DirectArrays.DirectArray.Expand | bash/array2.c:88-101 | the buffer gets room for the index and keeps what it holds |
| DirectArrays.DirectArray.Insert | bash/array2.c:632-660 | updates the same map; every access is inside the buffer |
| DirectArrays.DirectArray.Remove | bash/array2.c:665-695 | removes from the same map; the highest index is exact, the first a lower bound |
| DirectArrays.Replay | bash/array2.c:632-712 | any run of operations answers as with the list |
| HashStrings.Hash | bash/hashlib.c:207-223 | the sum of shifts is the product with the prime modulo 2^32, mixed in byte by byte |
| HashStrings.BucketIsRemainder | bash/hashlib.c:49-51 | with a power of two of buckets the mask selects an existing bucket, the remainder |
| HashStrings.GrowsToPow2 | bash/hashlib.c:153-161 | four times as many buckets, still a power of two, or no growth where an int overflows |
| HashChains.AllMovedItems | bash/hashlib.c:122-151 | relinking loses no item and duplicates none |
| HashChains.MoveChain | bash/hashlib.c:138-147 | the loop relinks a chain, item by item, each to the front of its bucket |
| HashTables.HashTable.constructor | bash/hashlib.c:61-80 | an empty table with a power of two of buckets |
| HashTables.HashTable.Search | bash/hashlib.c:237-281 | finds the item of a key, or creates it, with four times the buckets if there were two items to a bucket and the number fits |
| HashTables.HashTable.Insert | bash/hashlib.c:317-350 | finds or creates; without a search the key must be absent |
| HashTables.HashTable.Remove | bash/hashlib.c:286-313 | takes the item of a key out of its chain |
| HashTables.HashTable.Rehash | bash/hashlib.c:122-151 | every item in its bucket of the new array, the contents as before |
| HashTables.UnsearchedInOrder | bash/hashlib.c:317-350 | putting an item in without a search keeps one item per key if and only if its key was absent |
| HashCopies.Copy | bash/hashlib.c:172-188 | a table of its own with the same keys in the same order, each with its value, or what the given function makes of it |
| HashCopies.CopyChain | bash/hashlib.c:88-120 | a new chain, item by item the twin of the old |
| HashCopies.Flush | bash/hashlib.c:355-386 | an empty table with as many buckets |
| HashCopies.OrderIsMap | bash/hashlib.c:396-410 | a loop over the buckets and their chains meets every key exactly once |
| HashCopies.ToWordList | bash/assoc.c:480-498 | the list, built back to front and reversed, holds the keys or the values in that order |
| HashCopies.ListsAreMap | bash/assoc.c:480-511 | the lists of the keys and of the values are as long as the map, and hold each key once and its value at the same place |
| AssocArrays.Insert | bash/assoc.c:67-83 | sets the key in the map |
| AssocArrays.Replace | bash/assoc.c:86-103 | sets the key and returns what it had |
| AssocArrays.Remove | bash/assoc.c:105-117 | takes the key out of the map |
| AssocArrays.Reference | bash/assoc.c:119-129 | what the key has, if anything |
| AssocArrays.Replay | bash/assoc.c:67-129 | any run of operations, growth included, answers as a map |
| AliasScanner.SkipQuotes | bash/alias.c:312-333 | ends at a closing quote or the end of the line, never past it |
| AliasScanner.QuoteEndIsFirst | bash/alias.c:312-333 | that quote is the first one that is not escaped |
| AliasScanner.SkipWs | bash/alias.c:339-416 | ends where a plain word starts or at the end of the line, never past it, and says whether a separator was seen |
| AliasScanner.SkipSees | bash/alias.c:339-416 | a separator is only reported if one was skipped, and no start of a plain word is skipped |
| AliasScanner.EscapedWord | bash/alias.c:339-416 | a word that begins with a backslash before a letter is passed over whole |
| AliasScanner.RdToken | bash/alias.c:424-460 | ends at white space, a self-delimiting character or the end of the line, never past it |
| AliasScanner.TokenEndIsFirst | bash/alias.c:424-460 | that is the first such character that is neither escaped nor quoted |
| AliasExpansion.PiecesAreTheLine | bash/alias.c:464-578 | the texts skipped and the words read make up the line |
| AliasExpansion.NothingToExpand | bash/alias.c:464-578 | a line none of whose words names an alias comes back unchanged, unbalanced quotes and trailing backslashes included |
| AliasExpansion.AliasExpand | bash/alias.c:464-578 | the result is the line with exactly these words replaced: a word that names an alias and has no backslash, if it starts a command or comes after a word replaced by a value that ends in a blank; every pass advances |
| AliasExpansion.LawIsUnique | bash/alias.c:538-566 | that leaves no choice which words are replaced |
| AliasExpansion.PlainPieces | bash/alias.c:339-460 | in a line without quotes and backslashes words have no blanks and separators and are as long as they can be, and a word starts a command if and only if it is the first or comes after a separator |
| CoprocLists.CoprocList.Add | bash/execute_cmd.c:1910-1930 | appends, the tail the last reachable element and the count exact |
| CoprocLists.CoprocList.Delete | bash/execute_cmd.c:1932-1962 | removes the first element with the process id and returns it |
| CoprocLists.CoprocList.Reap | bash/execute_cmd.c:1964-2004 | removes exactly the dead and keeps the order of the rest |

## Left out

- `${`, `$(`, `<(`, backquotes and multibyte characters in brace text.
- BraceCompletion.HackBracesCompletion: quoting of the names for the shell is the identity on the plain characters it is stated for; sorting stands for the library's qsort; where the code does not sort, the names have to come with shared prefixes that never grow, as they do in both orders.
- Array subscripts, namerefs, unbound and read-only variables in expressions: this is the evaluator as built without array variables.
- The text and offset of error messages, and the globals kept only for them.
- Shift counts outside 0 to 63, which C leaves undefined; the model takes them modulo 64.
- Subshells, pipelines, background commands, redirections, traps, signals, functions, `select`, arithmetic `for`, `[[` and `((`: control flow is the sequential fragment.
- ShellExecutor.Shell.ExecuteFor: POSIX mode, in which a bad or read-only variable ends a shell that is not interactive, is not modelled.
- ShellMeaning.Meaning: a run is cut after an arbitrary number of `while` and `until` tests, so that endless loops are covered by all their beginnings.
- A `break` or `continue` with an argument that is no number, which ends the command line.
- Ids stand for the addresses of command nodes, and two sets of ids for their flag words.
- Null values of array elements, `array_slice`, `array_walk` and the conversions to and from word lists.
- DirectArrays.DirectArray.Insert: elements are values in their slots rather than records of their own, and the return value, always an error for a new element, is not modelled; nor are `array_copy` and the shifts there.
- HashTables.HashTable.Search: the counter of times an item was found is not kept, and the number of entries is not wrapped to an int.
- Shrinking of hash tables, `hash_walk`, and pair lists, quoting and assignment text made from associative arrays.
- Allocation failure and the freeing of memory.
- The letters that end a quoted word in aliases are those of ASCII.
