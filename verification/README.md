# Properties of the QuackOS user-land shell

The repository bundles bash 5.2 as its shell. This project models the parts of that
shell whose behaviour is least obvious from their text, and proves what they promise:

* **Arithmetic** (`Int64`, `ExprLexer`, `ExprMachine`, `ExprTree`, `ExprLayout`,
  `ExprCorrect`, `ExprTheorem`, `ExprText`, `ExprResults`, `ExprTargets`, `ExprClass`). `$((...))` is evaluated by a
  recursive-descent parser that computes while it parses, with one token of look-ahead, a
  counter that suppresses evaluation, a stack of saved contexts and variables whose texts
  are expressions themselves. `ExprClass` is that parser over mutable fields;
  `ExprMachine` gives each of its functions as a map on states; `ExprTree` gives trees,
  their texts and their meaning. The main theorem says that evaluating the text of a tree
  computes the meaning of the tree, among variables of any kind: a text that is no tree
  is `Other`, and leaves the meaning unknown only if it is read. `ExprTargets` says which
  texts left of an assignment operator are errors.
* **Braces** (`Braces`, `BraceWords`, `BraceCompletion`, `MkSeq`). Brace expansion,
  brace completion, which prints a sorted list of names as a brace word, and sequence
  terms. Expanding a completion gives the names back.
* **Commands** (`Commands`, `Shell`, `CommandLaws`, `JumpLaws`). How `break`, `continue` and `set -e`
  travel through the command tree: the interpreter with counters in globals and
  CMD_IGNORE_RETURN bits set on the tree, against a structural meaning that passes the
  context down and the outcome up.
* **Arrays** (`SparseMaps`, `SparseArray`, `SlotTable`) and **hash tables** (`HashChains`,
  `HashTable`), against finite maps.
* **Input** (`InputStream`) and **aliases** (`AliasScan`).

`Options` and `CStrings` hold what several modules share. `dafny verify dfyconfig.toml`
checks the whole project.

## Reading the model

* Characters are Dafny chars; a C string is a `string`, and the character at its end is
  NUL (`CStrings.At`).
* 64-bit values are `Int64.intmax`. In the evaluator, in `MkSeq` and in the sizes of
  `SlotTable` every operator that can overflow is `Wrap` of the exact one: signed overflow
  is taken to wrap, as the evaluator relies on. Pointers have 8 bytes, and the size of a
  block is reduced modulo 2^64. The other counters of the ring and of the interpreter are
  unbounded; the hash table's are ints, and no entry is made past INT_MAX.
* `SlotTable.Doubling`, `Table.Insert` and `Table.Flush` of the slot table report the inputs
  on which the source does not return or leaves the range of its types; on all others they
  are what the source does. `a[2^62]=v` on an empty array is one that does not return.
* evalerror and the jump to the top level become outcomes: `Fault` in the evaluator,
  `Exit` in the interpreter.
* The bits on the command tree are fields of the tree value, which each method of
  `Shell.Interpreter` hands back as it leaves it.
* Everything the rest of the shell decides (the status of a simple command, the words of
  a `for`, whether a pattern matches) is a function of the whole history, so equal
  histories mean that the same commands ran in the same order with the same answers.
* Loops may run forever. `Run` and the interpreter take a number of rounds after which a
  run is cut short; `CommandLaws.MoreFuel` shows that it has no other effect.
* The header `user/bash-5.2/include/typemax.h` skips its subtraction check when the start
  is 0; `MkSeq` does the same, and `MkSeq.RoomIsExact` says exactly what follows from it.
* In array_rshift the new element is linked in before the others are renumbered; in
  `SparseArray.Array.RShift` it is linked in after.

## Model

| member | source | states |
|---|---|---|
| `Int64.IPow` | user/bash-5.2/expr.c:943-958 | the squaring loop returns base^exp modulo 2^64 for every base and every exponent that is not negative, and it ends |
| `Int64.TruncatedDivision` | user/bash-5.2/expr.c:927-937 | `/` and `%` truncate toward zero: quotient times divisor plus remainder is the dividend, and the remainder has the dividend's sign |
| `Int64.BitsAt` | user/bash-5.2/expr.c:727-781 | each bit of bitwise and, or and exclusive or is the operator on the two bits at that place |
| `ExprLexer.Scan` | user/bash-5.2/expr.c:1309-1512 | the pointer loops of readtok find the same token, with the same rest of text, as the token grammar |
| `ExprLexer.StrLongLoop` | user/bash-5.2/expr.c:1544-1629 | the loop of strlong is the digit-by-digit reading, errors included |
| `ExprLexer.ScanIsPositional` | user/bash-5.2/expr.c:1578-1629 | for every digit string of a base the reading is the sum of digit times power of the base, modulo 2^64 |
| `ExprLexer.StrLongBase` | user/bash-5.2/expr.c:1579-1629 | `base#digits` has its positional value, modulo 2^64, for every base from 2 to 64 |
| `ExprLexer.StrLongHex` | user/bash-5.2/expr.c:1556-1576 | `0x` literals have their hexadecimal value modulo 2^64 |
| `ExprLexer.StrLongOctal` | user/bash-5.2/expr.c:1556-1576 | literals with a leading 0 have their octal value modulo 2^64 |
| `ExprLexer.StrLongDecimal` | user/bash-5.2/expr.c:1544-1629 | the decimal text of every number reads back as that number modulo 2^64 |
| `ExprMachine.ReadTok` | user/bash-5.2/expr.c:1309-1512 | reading a token keeps the context stack and noeval, changes no variable while noeval is set, and uses up text |
| `ExprMachine.StrEval` | user/bash-5.2/expr.c:1141-1244 | evaluating a variable's text changes nothing but variables, and none while noeval is set |
| `ExprMachine.SubExpr` | user/bash-5.2/expr.c:451-487 | a sub-evaluation restores the whole saved context; with 1024 contexts saved it faults on every text that is not blank, so no run ever holds more; the measure room, text, level shows that it ends for every text and every environment |
| `ExprMachine.Exp` | user/bash-5.2/expr.c:489-1112 | every parsing function returns with stack and noeval as they were, gives no text back, and changes no variable while noeval is set |
| `ExprCorrect.DivisionAgrees` | user/bash-5.2/expr.c:904-937 | the guarded division is exact division reduced to 64 bits, INTMAX_MIN by -1 included |
| `ExprTheorem.Parse` | user/bash-5.2/expr.c:489-1112 | for every tree printed in any spacing, with the parentheses its precedences need and any others it has, and literals in any form, the parser at any level returns the tree's value and variables, or faults as the tree does; only a text that is no tree's, if its variable is really read, leaves the meaning open |
| `ExprTheorem.EvalVar` | user/bash-5.2/expr.c:1141-1244 | a variable whose text is itself an expression evaluates to the meaning of that expression one level deeper, whatever the other variables hold |
| `ExprTheorem.Evaluate` | user/bash-5.2/expr.c:451-487 | subexpr on the text of a tree gives the tree's value and final variables, at every depth |
| `ExprResults.EvalExpIsMeaning` | user/bash-5.2/expr.c:404-448 | evalexp on the text of any tree, among any other variables, returns its denotational value and leaves its final variables: decimal, octal, hexadecimal and base# literals, right-associative `**` and `=`, `op=` reading its target first, `++`, `--`, `?:`, logical and, logical or, comma, wrapping |
| `ExprText.EveryTreeIsWritten` | user/bash-5.2/expr.c:1309-1512 | every well-formed tree has a text: its printed lexemes with a space before each can be told apart and stand for the tree |
| `ExprText.EvalExpOfEveryTree` | user/bash-5.2/expr.c:404-448 | so for every well-formed tree evalexp on that text returns the tree's value and variables: no tree is outside the main theorem |
| `ExprTargets.TargetsExactly` | user/bash-5.2/expr.c:504-535 | an assignment operator behind a conditional is accepted exactly when all that was read is one name, or when the turn of the `%` loop that leaves early (INTMAX_MIN by a name that is -1) came last; otherwise it is an error |
| `ExprTargets.PrimaryRejected` | user/bash-5.2/expr.c:504-535 | a primary that is not one bare name, as `(x)`, `7` or `--x`, is an error left of every assignment operator |
| `ExprTargets.ConditionalRejected` | user/bash-5.2/expr.c:504-535 | a conditional is an error left of every assignment operator, as in `c ? a : b = 3`, whatever its last branch |
| `ExprTargets.ModAssignmentEvaluates` | user/bash-5.2/expr.c:897-939 | of the texts `l % y op= a`: evalexp stores 0 op a in y if and only if l is INTMAX_MIN and y is -1, and otherwise reports an error |
| `ExprResults.CircularVariablesFault` | user/bash-5.2/expr.c:98-101 | an expression that first reads a variable whose own text first reads itself, as num=num+2 does, or one of a circle of such variables of any length, ends in a fault with every variable unchanged |
| `ExprResults.StoredValueReadsBack` | user/bash-5.2/expr.c:600-609 | a value stored as decimal text and evaluated again is unchanged, for every 64-bit integer and in every environment |
| `ExprResults.UnwantedKeepsVariables` | user/bash-5.2/expr.c:623-724 | an operand parsed with evaluation off changes no variable and its value depends on none |
| `ExprResults.LazyExactly` | user/bash-5.2/expr.c:623-724 | of a whole tree whose short-circuit run does not fail: evaluation agrees with that run if and only if no operand left unwanted on the way has a negative exponent or a bad literal that makes it an error, and otherwise faults |
| `ExprResults.EvaluationIsLazy` | user/bash-5.2/expr.c:623-724 | a check on the text alone: where no operand that may be unwanted is an error by itself, evaluation is short-circuit evaluation |
| `ExprResults.AndIsLazyExactly` | user/bash-5.2/expr.c:699-724 | at one `&&` with a zero left operand: agreement exactly when the right operand has a value as an unwanted one |
| `ExprResults.OrIsLazyExactly` | user/bash-5.2/expr.c:671-697 | the same at logical or, with a left operand that is not zero |
| `ExprResults.IfIsLazyExactly` | user/bash-5.2/expr.c:623-669 | the same at `?:`, for whichever branch is not wanted |
| `ExprResults.UnwantedNegativeExponent` | user/bash-5.2/expr.c:960-978 | `0 && 2 ** -1` is an error although its right operand is not wanted |
| `ExprClass.Evaluator.Readtok` | user/bash-5.2/expr.c:1309-1512 | the imperative token reader, look-ahead and restore included, leaves the state the machine says |
| `ExprClass.Evaluator.Subexpr` | user/bash-5.2/expr.c:451-487 | pushexp, parse, popexp in place leave the state the machine says |
| `ExprClass.Evaluator.Expassign` | user/bash-5.2/expr.c:504-621 | assignment in place agrees with the machine |
| `ExprClass.Evaluator.Expcond` | user/bash-5.2/expr.c:623-669 | the conditional in place agrees with the machine |
| `ExprClass.Evaluator.Explogical` | user/bash-5.2/expr.c:671-724 | explor and expland in place agree with the machine |
| `ExprClass.Evaluator.Expbinary` | user/bash-5.2/expr.c:727-939 | the loops of the binary levels, from expbor to expmuldiv, agree with the machine |
| `ExprClass.Evaluator.Exp0` | user/bash-5.2/expr.c:1015-1112 | the primary in place agrees with the machine |
| `ExprClass.Evaluator.Evalexp` | user/bash-5.2/expr.c:404-448 | the entry point in place returns the machine's value and variables, with stack and noeval cleared |
| `Braces.BraceGobbler` | user/bash-5.2/braces.c:594-729 | the scanning loop stops where the step-by-step scan does, at the character looked for or at the end |
| `Braces.ArrayConcat` | user/bash-5.2/braces.c:732-781 | both short cuts and the double loop give the ordered product of the two vectors |
| `Braces.FindOpening` | user/bash-5.2/braces.c:124-149 | the do-while loop finds the first open brace that has a matching close |
| `Braces.BraceExpand` | user/bash-5.2/braces.c:104-278 | the imperative expander computes the expansion function |
| `Braces.AmbleExpand` | user/bash-5.2/braces.c:285-352 | the loop over separators expands every piece and keeps their order |
| `BraceWords.PassWord` | user/bash-5.2/braces.c:594-729 | scanning past the text of any brace word returns to the same nesting level |
| `BraceWords.FindGroup` | user/bash-5.2/braces.c:124-149 | in the text of any brace word the expander finds exactly the first group |
| `BraceWords.ExpandBranches` | user/bash-5.2/braces.c:285-352 | splitting a group at its separators and expanding gives the meanings of its branches in order |
| `BraceWords.ExpandRender` | user/bash-5.2/braces.c:104-352 | for every plain brace word, expanding its text gives its ordered Cartesian product, whatever sequence terms mean |
| `BraceCompletion.StringGcd` | user/bash-5.2/bracecomp.c:47-62 | the loop returns the length of the longest common prefix |
| `BraceCompletion.Squeeze` | user/bash-5.2/bracecomp.c:85-98 | between two names in sorted order a third shares with the first at least what the last one does |
| `BraceCompletion.BlockSplits` | user/bash-5.2/bracecomp.c:83-133 | a block of several names shares strictly more than before and falls into at least two blocks once that prefix is taken away: recursion ends and every inner group has two branches |
| `BraceCompletion.PieceMeans` | user/bash-5.2/bracecomp.c:83-133 | the word of a block stands for the names of the block without the prefix |
| `BraceCompletion.ReallyMungeBraces` | user/bash-5.2/bracecomp.c:65-150 | the loop that appends, recurses and patches the last character builds the text of that word |
| `BraceCompletion.CompletionReadsBack` | user/bash-5.2/bracecomp.c:65-150 | expanding the completion of any sorted list of plain names gives back exactly that list in order |
| `BraceCompletion.OneMatchReadsBack` | user/bash-5.2/bracecomp.c:76-81 | a single match gives back that match |
| `MkSeq.RoomIsExact` | user/bash-5.2/braces.c:380-409 | when the range checks pass, the room made is exactly the number of terms, except from 0 to INTMAX_MIN, where the distance has no 64-bit absolute value |
| `MkSeq.PastIffCounted` | user/bash-5.2/braces.c:457-463 | term k passes the end exactly when there are no more than k terms |
| `MkSeq.AddTestIsExact` | user/bash-5.2/braces.c:456-458 | the addition check fails exactly on overflow, and then the next term would be past every end |
| `MkSeq.Fill` | user/bash-5.2/braces.c:416-468 | the loop fills the vector exactly: entry k is start + k*incr, none is past end, none is dropped |
| `MkSeq.MkSeq` | user/bash-5.2/braces.c:359-469 | the whole of mkseq for every start, end and increment: no vector exactly when a range check fails, a vector of room other than its terms exactly from 0 to INTMAX_MIN, and otherwise the exact sequence |
| `Commands.Run` | user/bash-5.2/execute_cmd.c:589-592 | a command never leaves more loops than there are around it, so none is pending outside all loops |
| `CommandLaws.ExitsExactly` | user/bash-5.2/execute_cmd.c:604-610 | under `set -e` a run ends early exactly when a simple command fails outside every if/while/until test, every operand of an and-or list but the last and every inverted command; it ends at that command with its status |
| `CommandLaws.GuardedNeverExits` | user/bash-5.2/execute_cmd.c:859-934 | nothing run in a guarded position, or inverted, ends the run |
| `JumpLaws.JumpSkips` | user/bash-5.2/execute_cmd.c:3726-3737 | a jump of n deep inside fewer than n while, until and for loops, in whatever round, and any sequences, and-lists, or-lists, ifs, case clauses, groups and inversions between them, leaves them all: nothing around it runs and the rest of n is still to go |
| `JumpLaws.JumpStops` | user/bash-5.2/execute_cmd.c:2984-2995 | at the n-th loop, whatever lies between, break ends that loop with the history so far and continue goes on with its next round |
| `CommandLaws.UntilContinueEnds` | user/bash-5.2/execute_cmd.c:3713-3720 | `until continue` ends its loop instead of resuming it |
| `CommandLaws.MoreFuel` | user/bash-5.2/execute_cmd.c:3695-3738 | the bound on rounds only cuts runs short: a run that ended has the same result under every larger bound |
| `Shell.Interpreter.Execute` | user/bash-5.2/execute_cmd.c:573-1147 | with flag bits set in place and jump counters in globals, every command returns the status, counters and history of the structural meaning; while a jump is under way it does nothing; bits stay only where a command is guarded |
| `Shell.Interpreter.ExecuteSimple` | user/bash-5.2/builtins/break.def:63-143 | break and continue set the counters, clipped to the loops there are; a failure nothing guards ends the run |
| `Shell.Interpreter.ExecuteConnection` | user/bash-5.2/execute_cmd.c:2740-2843 | sequences, and-lists and or-lists with the bits they set mean what the structural rule says |
| `Shell.Interpreter.ExecuteIf` | user/bash-5.2/execute_cmd.c:3748-3777 | if with the bits it sets means what the structural rule says |
| `Shell.Interpreter.ExecuteWhileOrUntil` | user/bash-5.2/execute_cmd.c:3681-3742 | the loop with its counters means what the structural rule says, and loop_level is balanced |
| `Shell.Interpreter.ExecuteFor` | user/bash-5.2/execute_cmd.c:2868-2998 | the same for `for`, the early returns on an invalid name and on a failed binding included |
| `Shell.Interpreter.ExecuteCase` | user/bash-5.2/execute_cmd.c:3596-3650 | case clauses, `;&` and `;;&` included, mean what the structural rule says |
| `Shell.Interpreter.RunTop` | user/bash-5.2/execute_cmd.c:573-1147 | after a whole command both counters and loop_level are 0 |
| `Shell.Interpreter.RunAgain` | user/bash-5.2/execute_cmd.c:604-610 | a tree whose bits were left set by one run ends a second run from the same point in the same way, with the same history |
| `SparseArray.Array.constructor` | user/bash-5.2/array.c:81-93 | an empty ring |
| `SparseArray.Array.AddBefore` | user/bash-5.2/array.c:48-54 | linking in before an element keeps ring, order and one-to-one indices |
| `SparseArray.Array.AddAfter` | user/bash-5.2/array.c:56-62 | linking in after an element keeps the same |
| `SparseArray.Array.FindPlace` | user/bash-5.2/array.c:587-631 | from any roving pointer, in either direction, the search reaches the element or its neighbour and never runs into the head: array_insert does not fail |
| `SparseArray.Array.Seek` | user/bash-5.2/array.c:654-690 | the search of remove and reference ends at the element, or past its place exactly when there is none |
| `SparseArray.Array.Insert` | user/bash-5.2/array.c:550-632 | insertion is map update; ring, count, max_index and roving pointer stay exact |
| `SparseArray.Array.Remove` | user/bash-5.2/array.c:639-691 | removal is removal from the map, and hands back the element |
| `SparseArray.Array.Reference` | user/bash-5.2/array.c:696-745 | the answer is the map's; only the roving pointer moves |
| `SparseArray.Array.Flush` | user/bash-5.2/array.c:96-113 | nothing is left |
| `SparseArray.Array.Shift` | user/bash-5.2/array.c:200-253 | the n elements of smallest index go and the indices of the others drop by n |
| `SparseArray.Array.RShift` | user/bash-5.2/array.c:260-294 | every index rises by n and the string goes to 0 |
| `SparseArray.Array.Copy` | user/bash-5.2/array.c:126-145 | a fresh well-formed ring with the same contents |
| `SparseArray.Array.PushAndPop` | user/bash-5.2/array.h:155-158 | a push and a pop leave the contents as they were |
| `SparseMaps.IndexAtLeastRank` | user/bash-5.2/array.c:200-241 | an index with n indices below it is at least n, so shifting leaves no index negative |
| `SparseMaps.CutIsUnique` | user/bash-5.2/array.c:218-220 | the number of elements to take out determines the cut |
| `SparseMaps.PopUndoesPush` | user/bash-5.2/array.h:155-158 | popping undoes pushing for every array, empty or sparse |
| `SlotTable.SizesFromDefault` | user/bash-5.2/array2.c:98-103 | the sizes tried for an empty table never pass 2^62, so for an index from there on the loop does not end |
| `SlotTable.GrowthEnds` | user/bash-5.2/array2.c:98-103 | the doubling of an empty table ends if and only if the index is below 2^62 |
| `SlotTable.Doubling` | user/bash-5.2/array2.c:98-103 | the 64-bit loop, from any size: it never ends exactly when no size it tries is above the index; below 2^62 it gives the least size above the index |
| `SlotTable.Table.Expand` | user/bash-5.2/array2.c:92-107 | growing makes room for the index and loses nothing if and only if the index fits already or is below 2^61 - 1024; from there on the loop does not end or the block's size in bytes wraps |
| `SlotTable.Table.Insert` | user/bash-5.2/array2.c:675-705 | insertion is map update exactly when there is or can be room for the index; the return code is 0 for a replaced element and -1 for a new one |
| `SlotTable.Table.Flush` | user/bash-5.2/array2.c:122-141 | nothing is left if and only if the table was empty or its last index is below INT_MAX, the range of the counter |
| `SlotTable.SmallIndicesAreSafe` | user/bash-5.2/array2.c:675-762 | every run whose indices are below INT_MAX is carried through |
| `SlotTable.SameAnswers` | user/bash-5.2/array2.c:675-762 | ring and slot table answer every reference alike after any run of insertions, removals and flushes from empty that the slot table carries through, and it carries a run through if and only if every step meets the conditions of its operation |
| `SlotTable.Table.Remove` | user/bash-5.2/array2.c:711-743 | removal is removal from the map; max_index stays exact, first_index a lower bound |
| `SlotTable.Table.Reference` | user/bash-5.2/array2.c:748-762 | the answer is the map's |
| `HashChains.HashLoop` | user/bash-5.2/hashlib.c:214-231 | the shift-and-add loop computes FNV-1 |
| `HashChains.ShiftsMultiply` | user/bash-5.2/hashlib.c:225-226 | the shifts and additions are multiplication by the FNV prime modulo 2^32 |
| `HashChains.MaskAtMost` | user/bash-5.2/hashlib.c:51-51 | masking selects a bucket that exists, for every number of buckets |
| `Int64.MaskIsRemainder` | user/bash-5.2/hashlib.c:51-51 | for a power of two the mask is the remainder |
| `HashChains.LookupIs` | user/bash-5.2/hashlib.c:247-293 | what the buckets answer for a key is what the map says |
| `HashChains.TotalLength` | user/bash-5.2/hashlib.c:41-42 | the chains together are as long as the map is large |
| `HashTable.Table.constructor` | user/bash-5.2/hashlib.c:61-81 | an empty table of the asked-for size |
| `HashTable.Table.Search` | user/bash-5.2/hashlib.c:247-273 | the item handed back is the one linked in for the key, or null exactly when there is none; contents and links stay |
| `HashTable.Table.SearchOrCreate` | user/bash-5.2/hashlib.c:247-293 | with HASH_CREATE an absent key gets an item with null data |
| `HashTable.Link` | user/bash-5.2/hashlib.c:150-151 | an item that is in no chain becomes the first of its bucket; every other link stays |
| `HashTable.Unlink` | user/bash-5.2/hashlib.c:313-327 | relinking the item before, or the bucket, takes exactly one item out of its chain |
| `HashTable.Move` | user/bash-5.2/hashlib.c:144-152 | walking one old chain while its items are relinked misses none: the rest of the old chains stays linked, and all moved items are in their new buckets |
| `HashTable.Table.Rehash` | user/bash-5.2/hashlib.c:124-155 | relinking every item by its cached hash keeps the contents, with each item in the bucket its hash selects |
| `HashTable.Table.Grow` | user/bash-5.2/hashlib.c:157-166 | growth keeps the contents and quadruples the buckets when the size fits an int |
| `HashTable.Table.Insert` | user/bash-5.2/hashlib.c:333-369 | insertion adds an absent key, leaves a present one and hands back its item; at most two items a bucket while sizes do not overflow |
| `HashTable.Table.Remove` | user/bash-5.2/hashlib.c:299-329 | removal is removal from the map; the item handed back is the key's and is in no chain any more |
| `HashTable.CopyBucket` | user/bash-5.2/hashlib.c:90-122 | the copy of a chain has fresh items, linked in the same order, with copied data |
| `HashTable.Table.Copy` | user/bash-5.2/hashlib.c:178-196 | the copy shares no item with the table and has the same keys with copied data |
| `HashTable.Table.Flush` | user/bash-5.2/hashlib.c:374-405 | nothing is left |
| `HashTable.Table.EntriesCounted` | user/bash-5.2/hashlib.c:41-42 | nentries is the length of all chains |
| `InputStream.Stream.Getc` | user/bash-5.2/input.c:487-533 | a get delivers what is next, pushed-back characters first, whatever sizes reads have, and leaves the character where it can be pushed back |
| `InputStream.Stream.Ungetc` | user/bash-5.2/input.c:536-546 | any character pushed back is the next one delivered; it is refused exactly at the start of the buffer |
| `InputStream.Stream.Sync` | user/bash-5.2/input.c:550-565 | the file offset becomes the number of characters consumed, and the buffer is given up |
| `InputStream.SameCharacters` | user/bash-5.2/input.c:487-565 | every run of gets, pushbacks right after a get, and syncs delivers what unbuffered reading does, a pushback stepping back by one and never refused |
| `InputStream.GetSyncUnget` | user/bash-5.2/input.c:536-565 | after a get and a sync the pushback is refused |
| `AliasScan.SkipQuotes` | user/bash-5.2/alias.c:321-344 | the scan returns the first unescaped quote like the opening one, or the end when there is none, with an unclosed quote and a trailing backslash included |
| `AliasScan.ReadToken` | user/bash-5.2/alias.c:437-471 | a token ends at the first unquoted, unescaped character that is none of a token, or at the end |
| `AliasScan.SkipWs` | user/bash-5.2/alias.c:350-423 | the skipper agrees, character by character, with the quoting automaton: where it stops and whether it passed a separator |
| `AliasScan.AliasExpand` | user/bash-5.2/alias.c:478-592 | the loop ends on every line; the result is the line cut into gaps and words with exactly those words replaced that the command-word rules look up |
| `AliasScan.PiecesCover` | user/bash-5.2/alias.c:478-592 | the gaps and words are the line: nothing is lost, doubled or moved |
| `AliasScan.NoAliases` | user/bash-5.2/alias.c:478-592 | without aliases every line comes back as it was |
| `AliasScan.ReplacedAreWords` | user/bash-5.2/alias.c:520-567 | whatever is replaced is a maximal word that begins outside all quotes of the line, from an edge to the first delimiter, and is replaced by its alias |
| `AliasScan.EscapedWord` | user/bash-5.2/alias.c:345-423 | a first word of a backslash, any character and a word with an alias: left alone if and only if that character is a letter; otherwise the rest is replaced |
| `AliasScan.QuotedWord` | user/bash-5.2/alias.c:345-423 | a first word that starts with a quoted part, closed at i: left alone if and only if a letter comes after the quote; otherwise the rest is replaced |

## Left out

- ExprLexer.Scan: a name followed by `[` is an error, and the choice among operators is the token grammar's own function.
- ExprMachine.StrEval: scalars only; array subscripts, associative arrays, name references, read-only variables and `set -u` are left out.
- ExprMachine.Exp: a shift takes the low six bits of its count, as x86-64 does; C leaves other counts undefined.
- ExprClass.Evaluator.Expbinary: the eight binary levels of the source are one method with the level as parameter; likewise explor and expland in `Explogical`.
- Braces.BraceGobbler: the skipping of `$(...)`, `<(...)` and `>(...)`, and multibyte characters, are left out.
- The text of a sequence term (expand_seqterm) is a parameter of the expander; how mkseq writes a number is a parameter of `MkSeq.MkSeq`.
- MkSeq.MkSeq: what the loop does to memory past its room, from 0 to INTMAX_MIN, is not modelled.
- BraceCompletion.ReallyMungeBraces: sh_backslash_quote is the identity, as it is on the plain names that completion is stated for; sorting the names is left to the caller, as readline does it.
- Pipes, subshells, background jobs, redirections, traps, functions, `select` and `(( ; ; ))` loops, `[[ ]]` and `(( ))` commands, and a change of `set -e` during a run.
- Shell.Interpreter.ExecuteCase: clauses are walked by recursion, and expanding a pattern has no side effects.
- Shell.Interpreter.ExecuteFor: posix mode, where an invalid name or a read-only variable ends the shell, is left out.
- JumpLaws.JumpSkips: the action of a case clause is reached by a match, not by falling through; a jump out of a loop's test is the subject of CommandLaws.ContinueInTest.
- SparseArray.Array.Shift: only the form that disposes of the elements; the list handed back otherwise is not modelled.
- SparseArray.Array.RShift: indices do not overflow 64 bits; the new element is linked in after the renumbering.
- Null values in array elements, array_slice, and the conversions to and from words.
- SlotTable.Table.Insert: reports an index it has no room for; what the source then does, a loop without end or a write past a block that is too short, is not modelled.
- SlotTable.Table.Flush: says nothing of the table once the int counter has left its range.
- Copying, shifting and slicing of slot tables.
- HashTable.Table.Insert: hands back nothing for a new key when there are INT_MAX entries already, where the source's count overflows.
- Of the hash table: shrinking, which nothing calls, and hash_walk.
- InputStream.Stream.Getc: read errors and text-mode files are left out.
- AliasScan.AliasExpand: the aliases are a map from names to values; the flags on an alias and the global list of aliases are left out.
- ExprResults.EvalExpIsMeaning: says nothing of an evaluation that reads a variable whose text is no tree's; its token and parse errors are left open.
- Memory allocation failure, freeing, signals and interrupts everywhere.
- The kernel and its build scripts, whose sources are not part of this model.
