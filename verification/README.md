# Verified models of a federated computing platform

This project models seven algorithms of the repository in Dafny and proves what they promise. Each source
file has one or more modules; state that the source changes in place is held in classes and arrays, and every
method is proved against functions whose properties are proved as lemmas.

- **Expressions over secret shares** (`ExpressSyntax`, `ExpressParser`, `ExpressGrammar`, `ParserLimits`,
  `PostfixMachine`, `MachineIntegers`, `Numbers`, `SecretShares`, `ExpressExecutor`, `ExpressRun`,
  `ExpressArithmetic`). An infix expression is parsed with
  two stacks into a postfix program, which three parties run over replicated shares and one machine runs over plain
  columns. The main result, `ExpressRun.EvaluateBothWays`, goes from the typed text to the opened column: both runs
  give each row the value of the tree that precedence and left associativity give to the text. Integers wrap at 64
  bits (the proofs need only that wrapping respects + and -, which `MachineIntegers.Wrap64IsLawful` shows for 64
  bits); doubles are reals, and a division by zero gives a value of its own. `ExpressGrammar` says what is parsed
  without mentioning priorities, `ExpressArithmetic` what is computed in plain arithmetic: an integer run gives the exact
  value wrapped once at the end, however often it overflows on the way. `ParserLimits` says exactly on which
  texts the parser fails and what its check lets through.
- **Exact Shapley values** (`Combinatorics`, `ShapleyValue`, `ShapleyProperties`, `ShapleyRounds`). The weighted
  sum over subsets is the average over all orderings, and the values add up to what all clients gained.
- **Truncated permutation sampling** (`GtgShapley`, `GtgAverages`, `GtgBounds`). The cached utility of all clients
  drifts by at most one threshold for every ordering. All utilities taken are exact exactly when what truncation leaves
  out of each ordering is worth nothing, and then a client's value is exact. For a monotone utility, truncation and cache
  take it at most K + 1 thresholds away from the exact one over K orderings.
- **Three-party minimum and maximum** (`MinMaxProtocol`, `ColumnExtremes`). Three programs that branch on opened
  bits stay in step; the statistic is right exactly when some row is no worse than every number that
  an accumulator started from, which for MIN is so as soon as every party has a value.
- **Mini-batches without replacement** (`BatchSampling`). Over a whole training run every row is drawn equally
  often, up to one.
- **Order-restoring join and index windows** (`DataAlign`, `QueryWindows`). The join always has written the
  longest possible prefix; the windows are a partition only in the cases found.
- **The style checker** (`LineText`, `MultiLineComments`, `NestingStack`, `BracketScan`, `BracketMatching`,
  `BracketLines`, `BracketTemplates`, `BracketGuesses`). Comment removal is a one-pass reading of the lines, saving and
  restoring the nesting stack is skipping the branches that are not taken, and the two bracket searches undo each other,
  on every text from `(`, `[` and `{`, and from `<` where nothing has to be guessed.

`Facts` holds a guard that keeps long facts out of proofs that do not need them.

Properties that turned out not to hold on all inputs are stated with the exact condition under which they hold, and
each with a concrete input on which they fail:

| exact condition | input |
|---|---|
| `ParserLimits.ReadsPastEnd` | `ParserLimits.OpenSignReadsPastEnd` |
| `ParserLimits.RoundTripExactly` | `ParserLimits.SignSwallowsSum` |
| `ParserLimits.AcceptsExactly`, `ParserLimits.AcceptedRuns` | `ParserLimits.BareOperatorsAreAccepted`, `ParserLimits.AcceptedButIllFormed` |
| `ExpressParser.AcceptsTree` | `ParserLimits.SwallowedBracketIsRefused` |
| `ExpressRun.FaultsTogether` | `ExpressRun.ConstantsFault`, `ExpressRun.UnknownNameFaults`, `ExpressRun.SwallowedSumFaults` |
| `ColumnExtremes.ExtremeExactly`, `ColumnExtremes.GlobalMaximum` | `ColumnExtremes.EmptyChunkCounts`, `ColumnExtremes.NegativeMaximum` |
| `DataAlign.FailsExactly` | `DataAlign.RepeatedRowFails` |
| `QueryWindows.PartitionsExactly` | `QueryWindows.TwoThreadsThreeBatches` |
| `GtgShapley.OrderingFits` | `GtgShapley.ExampleIdsFail` |
| `GtgShapley.StoredAtOwnIndex` | `GtgShapley.ReversedListIsMisread` |
| `GtgAverages.RoundIsExact`, `GtgBounds.ScanErrorIs` | `GtgBounds.TruncationHidesGain` |

Where code and documentation disagree, the code is followed: the example list `[1, 3, 4, 7]` in a comment of the
Shapley estimator makes it fail with an index error (`GtgShapley.ExampleIdsFail`), and a MAX over values that are
all negative is never one of them: over exact numbers it is the smallest positive double, where a MAX starts from.

The statistic is modelled over exact numbers. The source puts each local result into a fixed-point matrix with 16
fractional bits (src/fediux/executor/statistics.cc:223-224, 306-307), in which that double is 0 and the largest double,
where a MIN of doubles starts from, does not fit; so what `ColumnExtremes.ExtremeExactly`,
`ColumnExtremes.MinimumOfOneKind` and `ColumnExtremes.NegativeMaximum` say of parties whose result is a starting value
is about exact numbers.

## Model

| member | source | states |
|---|---|---|
| ExpressSyntax.TreeWellFormed | src/fediux/executor/express.cc:385-402 | every infix text has a tree with the same text, grouped by precedence and then to the left |
| ExpressParser.PartsMakePostfix | src/fediux/executor/express.cc:538-542 | what has been emitted, what is held back and what is pending, joined as the final loop joins them, are the postfix program of the tree |
| ExpressParser.StepOperator | src/fediux/executor/express.cc:492-513 | an operator makes exactly the pending operators of its left operand leave, in order, and none below them |
| ExpressParser.StepClose | src/fediux/executor/express.cc:518-531 | a closing bracket empties exactly its own bracket; a lone operand in it stays in the buffer |
| ExpressParser.ScanTree | src/fediux/executor/express.cc:457-555 | reading the text of a tree, anywhere in a longer text, leaves exactly the tree's three parts on top of what was there |
| ExpressParser.ParsesTree | src/fediux/executor/express.cc:451-555 | the parser gives every well-formed expression the postfix program of its tree |
| ExpressParser.ParsesInfix | src/fediux/executor/express.cc:451-555 | the same for texts as typed, operators in any order of precedence |
| ExpressGrammar.ParsesSum | src/fediux/executor/express.cc:385-402 | the parser gives every sum of terms of factors, each from left to right, its program: both operands, then the operator |
| ExpressGrammar.InfixIsSum | src/fediux/executor/express.cc:385-402 | every expression as typed is such a sum, with the same text |
| ExpressGrammar.ThreeOperands | src/fediux/executor/express.cc:492-513 | for any three names and any operators p and q: a p b q c is a (b c q) p when p is + or - and q is * or /, and (a b p) c q otherwise; with brackets around b q c it is always the former |
| ExpressGrammar.ThreeNames | src/fediux/executor/express.cc:1222-1222 | the names of their results: every operation in brackets |
| ExpressParser.AcceptsTree | src/fediux/executor/express.cc:405-448 | the check accepts a well-formed expression exactly when it has fewer than 65536 operators and no negative number has swallowed a bracket |
| ExpressParser.BracketedIsNamed | src/fediux/executor/express.cc:1222-1222 | the name built for a result is the text of the tree with every operation in brackets, which has the same program |
| ExpressParser.RoundTrip | src/fediux/executor/express.cc:1200-1291 | the name under which a result is stored, parsed again, gives the program that computed it |
| ParserLimits.RoundTripExactly | src/fediux/executor/express.cc:471-492 | it does so exactly when the expression has no negative number, whatever its bracketed signs have swallowed |
| ParserLimits.ReadsPastEnd | src/fediux/executor/express.cc:468-490 | the parser reads beyond the end of a text exactly when the text starts with a sign and has no other operator, or a sign after an opening bracket has no closing bracket after it |
| ParserLimits.LoneSignReadsPastEnd | src/fediux/executor/express.cc:473-476 | so does every text that is only a negative number |
| ParserLimits.OpenSignReadsPastEnd | src/fediux/executor/express.cc:480-488 | "X*(-A" and "-A" are such texts |
| ParserLimits.SignSwallowsSum | src/fediux/executor/express.cc:480-488 | "(-A+B)" becomes one token, and the name of its result parses back to another program |
| ParserLimits.AcceptsExactly | src/fediux/executor/express.cc:423-445 | a program is accepted exactly when it has no bracket and one more operand than operators, fewer than 65536 of them, or is 131071 operators and nothing else |
| ParserLimits.BareOperatorsAreAccepted | src/fediux/executor/express.cc:424-430 | the 16-bit count accepts 131071 operators, which lack an operand at once |
| ParserLimits.ExtraBracketIsAccepted | src/fediux/executor/express.cc:518-531 | "A+B)" is parsed like "A+B" and accepted |
| ParserLimits.UnclosedBracketIsRefused | src/fediux/executor/express.cc:412-417 | "(A+B" leaves its bracket on the stack and is refused |
| ParserLimits.ExecutableIsFed | src/fediux/executor/express.cc:1173-1198 | a program is executable exactly when in every nonempty prefix the operands, with those already on the stack, outnumber the operators |
| ParserLimits.AcceptedRuns | src/fediux/executor/express.cc:423-433 | acceptance is enough exactly for those programs: then one value is left; otherwise, if nothing faults, an operator finds too few operands |
| ParserLimits.AcceptedButIllFormed | src/fediux/executor/express.cc:423-433 | "(A+)B" is accepted and its program underflows, whatever A is worth |
| ParserLimits.SwallowedBracketIsRefused | src/fediux/executor/express.cc:435-445 | "(-(A)" is a well-formed negative number and is refused |
| PostfixMachine.RunsTree | src/fediux/executor/express.cc:1204-1284 | running the program of a tree adds its name and its value to the two stacks, touches nothing below, and stores the value under the name; it faults exactly when the tree has no value, because of an operand or an operator |
| PostfixMachine.SafeRun | src/fediux/executor/express.cc:1173-1198 | on any program, an empty stack is popped only if an operator lacks operands; otherwise the stacks keep equal height and end at the predicted one |
| PostfixMachine.ProgramIsSafe | src/fediux/executor/express.cc:1204-1290 | for the program of an expression, after every step the rest is executable from the height reached, and one name remains |
| MachineIntegers.WrapOnce | src/fediux/executor/express.cc:895-938 | wrapping two operands and then their sum, difference or product is wrapping the exact result |
| MachineIntegers.Wrap64IsLawful | src/fediux/executor/express.cc:895-938 | 64-bit two's complement respects sums and differences, and gives the number in range that differs by a multiple of 2^64 |
| SecretShares.OpensSecret | src/fediux/operator/aby3_operator.cc:126-134 | whichever party a result is opened to computes the secret from its two addends and the one it is sent |
| SecretShares.ShareCarries | src/fediux/operator/aby3_operator.cc:39-54 | a fresh sharing is consistent over the three parties and carries the column, whatever the random addends |
| SecretShares.AddIsPlus | src/fediux/operator/aby3_operator.h:237-247 | adding views locally adds the secrets and keeps the three views consistent |
| SecretShares.SubIsMinus | src/fediux/operator/aby3_operator.h:311-322 | the same for differences |
| SecretShares.AddConstIsPlus | src/fediux/operator/aby3_operator.h:261-278 | a constant added by parties 0 and 1 to the addend they share is added once |
| SecretShares.SubConstIsMinus | src/fediux/operator/aby3_operator.h:339-363 | share minus constant, and constant minus share by negating both addends of every party |
| Numbers.ReciprocalDivides | src/fediux/executor/express.cc:1164-1167 | multiplying by the reciprocal of a constant is dividing by it, zero included |
| ExpressExecutor.IntegerRunsAreDefined | src/fediux/executor/express.cc:612-659 | when integer mode is chosen, every row of the result has a value |
| ExpressExecutor.FloatingRunsAreDefined | src/fediux/executor/express.cc:1121-1171 | in floating-point mode a row has no value exactly when an operand does not convert or some divisor is zero in it |
| ExpressExecutor.AddStep | src/fediux/executor/express.cc:847-938 | a sum over shares, or of a share and a constant on either side, carries the sum of the operands; there is none exactly for two constants |
| ExpressExecutor.SubStep | src/fediux/executor/express.cc:940-1030 | the same for differences, with the operands in the right order |
| ExpressExecutor.MulStep | src/fediux/executor/express.cc:1032-1118 | the same for products |
| ExpressExecutor.DivStep | src/fediux/executor/express.cc:1120-1170 | the same for quotients: a constant dividend is shared by party 0, a constant divisor becomes its reciprocal |
| ExpressExecutor.MpcDenotes | src/fediux/executor/express.cc:1200-1285 | the three parties get through the program exactly when every operand is a column or converts to a number and no operator has two constants, and then hold shares of the tree's column |
| ExpressExecutor.LocalIsMeaning | src/fediux/executor/express.cc:1404-1630 | the plain machine gets through exactly the same programs, and then has the tree's column |
| ExpressRun.MpcExpressExecutor.constructor | src/fediux/executor/express.cc:359-362 | an executor starts with empty stacks and an empty table |
| ExpressRun.MpcExpressExecutor.ParseExpress | src/fediux/executor/express.cc:451-555 | the loops leave on the stack what the parsing function gives for the text and the old stack |
| ExpressRun.MpcExpressExecutor.PushOperator | src/fediux/executor/express.cc:499-513 | moves the operators that bind at least as tightly, in order, to the output and pushes the new one |
| ExpressRun.MpcExpressExecutor.CloseBracket | src/fediux/executor/express.cc:518-531 | empties the innermost bracket, and flushes the buffer only if an operator leaves |
| ExpressRun.MpcExpressExecutor.CheckExpress | src/fediux/executor/express.cc:405-448 | decides whether an expression is accepted, with its 16-bit count |
| ExpressRun.MpcExpressExecutor.ImportExpress | src/fediux/executor/express.cc:601-610 | parses, checks, and keeps the text only if it is accepted |
| ExpressRun.MpcExpressExecutor.ResolveRunMode | src/fediux/executor/express.cc:612-659 | floating point exactly when there is a division, a floating-point column or a number with a point; the columns among the tokens; and whether a token is no column, on which the lookup of its type raises an exception |
| ExpressRun.MpcExpressExecutor.RunMpcEvaluate | src/fediux/executor/express.cc:1200-1291 | the loop with its two stacks and its table ends as the stack machine does on the program |
| ExpressRun.MpcExpressExecutor.RevealMpcResult | src/fediux/executor/express.cc:1294-1320 | opens the share stored under the name on top of the stack and takes the name off |
| ExpressRun.LocalExpressExecutor.constructor | src/fediux/executor/express.cc:1651-1654 | a local executor starts with an empty table and no rows |
| ExpressRun.LocalExpressExecutor.Calculate | src/fediux/executor/express.cc:1418-1437 | one operation row after row, constants on either side |
| ExpressRun.LocalExpressExecutor.RunLocalEvaluate | src/fediux/executor/express.cc:1404-1630 | parses the kept text again, ends as the stack machine does, and appends the rows of the result |
| ExpressRun.MpcRun | src/fediux/executor/express.cc:1200-1320 | the share stored under the final name opens to the tree's column, to any of the parties |
| ExpressRun.LocalRun | src/fediux/executor/express.cc:1404-1630 | the value stored under the final name is the tree's column |
| ExpressRun.FaultsTogether | src/fediux/executor/express.cc:832-889 | both evaluators stop exactly on expressions with an operator on two constants or an operand that is no column and does not convert to a number |
| ExpressRun.ConstantsFault | src/fediux/executor/express.cc:884-889 | "1+2", "1-2", "1*2" and "1/2" parse and are accepted, and both evaluators stop at them |
| ExpressRun.UnknownFaults | src/fediux/executor/express.cc:832-840 | any single operation whose right operand has no value parses, is accepted, and stops both evaluators |
| ExpressRun.UnknownNameFaults | src/fediux/executor/express.cc:1675-1682 | "X+Y" with a column X and an unknown Y has no two constants, is accepted, and stops both evaluators |
| ExpressRun.SwallowedSumFaults | src/fediux/executor/express.cc:832-840 | so does "X*(-A+B)", whose second operand is the text "-A+B" |
| ExpressRun.RowsWithValue | src/fediux/executor/express.cc:612-659 | with the run mode that is chosen, a row has no value exactly in a floating-point run, when an operand does not convert or some divisor is zero in it |
| ExpressRun.EvaluateJointly | src/fediux/executor/express.cc:1200-1320 | import, choice of the run mode, joint evaluation and opening of a typed expression give the column of its tree and leave the stack empty |
| ExpressRun.EvaluateBothWays | src/fediux/executor/express.cc:1404-1630 | after it, local evaluation gives the same column, the meaning of the tree of the typed text, with values in exactly the rows without a zero divisor |
| ExpressArithmetic.IntegerRows | src/fediux/executor/express.cc:1404-1630 | in an integer run every row is the exact value of the typed expression, in unbounded integers, wrapped once at 64 bits |
| ExpressArithmetic.FloatingRows | src/fediux/executor/express.cc:1404-1630 | in a floating-point run every row is the value of the typed expression over the reals, none where a divisor is zero |
| ExpressArithmetic.EvaluateReals | src/fediux/executor/express.cc:1033-1170 | one operation on two operands in a floating-point run: what both evaluations return in each row is the sum, difference or product, and times the divisor the dividend |
| ExpressArithmetic.EvaluateIntegers | src/fediux/executor/express.cc:847-938 | the same in an integer run: the exact result if it is in range, otherwise the number in range that differs by a multiple of 2^64; a run with a division is none |
| Combinatorics.OrderingsAreAll | python/fediux/contribution/mr_shapley_value.py:68-94 | the listed orderings are exactly the permutations of the clients |
| Combinatorics.ChooseFirst | python/fediux/contribution/mr_shapley_value.py:77-90 | choosing a first member and then a coalition of the rest counts each coalition once for every member |
| Combinatorics.OrderingsToSubsets | python/fediux/contribution/mr_shapley_value.py:77-90 | a sum over orderings that depends only on who comes before a client is a sum over coalitions, each counted as often as it comes before |
| Combinatorics.WaysAreWeights | python/fediux/contribution/mr_shapley_value.py:86-86 | how often a coalition comes before a client, over the number of orderings, is the weight of the code |
| ShapleyValue.PowerSetIsAll | python/fediux/contribution/base_contribution_assessor.py:40-47 | the subsets generated are exactly the tuples of clients in list order |
| ShapleyValue.ShapleyValues | python/fediux/contribution/mr_shapley_value.py:68-94 | the loops over subsets and members give every client the weighted sum, in whatever order the subsets come |
| ShapleyValue.AddSubset | python/fediux/contribution/mr_shapley_value.py:79-90 | one subset adds its term to every member and nothing to the others |
| ShapleyValue.AnyOrder | python/fediux/contribution/mr_shapley_value.py:74-77 | the order of the dictionary does not matter |
| ShapleyValue.ValueIsNonNegative | python/fediux/contribution/mr_shapley_value.py:85-90 | no value is negative |
| ShapleyValue.UselessClient | python/fediux/contribution/mr_shapley_value.py:85-85 | a client that makes no subset better is worth nothing, however much worse it makes them |
| ShapleyValue.TwoClients | python/fediux/contribution/mr_shapley_value.py:77-90 | of two clients, each is worth half of what it adds to nobody and half of what it adds to the other |
| ShapleyProperties.ValueOverOthers | python/fediux/contribution/mr_shapley_value.py:77-90 | a value is a sum over the coalitions of the other clients |
| ShapleyProperties.ValueIsAverage | python/fediux/contribution/mr_shapley_value.py:77-90 | a value is the average, over all orderings, of what the client adds to those before it, when that is more than nothing |
| ShapleyProperties.GainsTelescope | python/fediux/contribution/mr_shapley_value.py:85-85 | along one ordering the gains add up to at least the whole gain, and to exactly it for a monotone utility |
| ShapleyProperties.Efficiency | python/fediux/contribution/mr_shapley_value.py:68-94 | the values add up to at least u(all) - u(empty), with equality when u is monotone |
| ShapleyRounds.MeasureSubsets | python/fediux/contribution/mr_shapley_value.py:40-61 | the two known utilities are kept, every other subset is measured once |
| ShapleyRounds.RoundUtilityIsUtility | python/fediux/contribution/mr_shapley_value.py:37-61 | the utilities of a round are defined on exactly the subsets |
| ShapleyRounds.RoundUtilityIs | python/fediux/contribution/mr_shapley_value.py:40-61 | they are the old accuracy for nobody, that of the aggregated model for all, and the measured accuracy for every other subset |
| ShapleyRounds.MRShapleyValue.constructor | python/fediux/contribution/mr_shapley_value.py:20-24 | an assessor starts without rounds |
| ShapleyRounds.MRShapleyValue.Run | python/fediux/contribution/mr_shapley_value.py:26-66 | stores the values of the round's utility under its index, and keeps all stored values non-negative |
| ShapleyRounds.MRShapleyValue.GetFinalContributionAssignment | python/fediux/contribution/mr_shapley_value.py:96-138 | what is assigned to a client, times the total of all clients, is the client's sum over the rounds; when the total is zero, it is one over the number of clients |
| ShapleyRounds.TotalGrows | python/fediux/contribution/mr_shapley_value.py:108-121 | a round adds to a client's sum the value it has for it, and nothing for a client it does not name |
| ShapleyRounds.StoreReplaces | python/fediux/contribution/mr_shapley_value.py:65-65 | a round is stored under its own index, in place of what was there, and all other rounds are kept |
| ShapleyRounds.AssignmentIsNonNegative | python/fediux/contribution/mr_shapley_value.py:116-138 | no assignment is negative |
| ShapleyRounds.AssignmentAddsUp | python/fediux/contribution/mr_shapley_value.py:100-138 | the assignments add up to exactly one |
| ShapleyRounds.AssignmentIsSymmetric | python/fediux/contribution/mr_shapley_value.py:108-138 | clients with the same value in every round are assigned the same |
| ShapleyRounds.RoundIsEfficient | python/fediux/contribution/mr_shapley_value.py:40-66 | the values of a round add up to at least the accuracy gained, and to exactly it for monotone utilities |
| GtgShapley.SortKeyKeeps | python/fediux/contribution/gtg_shapley_value.py:98-99 | sorting a prefix keeps its clients and puts them in increasing order |
| GtgShapley.PrefixKeyIs | python/fediux/contribution/gtg_shapley_value.py:96-99 | for a sorted list, the key of a prefix is the tuple of its clients in list order, and the last one is the key of all |
| GtgShapley.ScanOrder | python/fediux/contribution/gtg_shapley_value.py:85-136 | one ordering: cache, truncation and record; fails exactly when an index lies outside the record |
| GtgShapley.GTGShapleyValue.constructor | python/fediux/contribution/gtg_shapley_value.py:12-28 | an estimator starts without records and rounds, with the thresholds 0.001 and 0.01 |
| GtgShapley.GTGShapleyValue.Run | python/fediux/contribution/gtg_shapley_value.py:40-158 | a round of too little change gives everybody zero; otherwise it fails exactly when the ids leave a gap, and stores the averages of the records |
| GtgShapley.StoreAppends | python/fediux/contribution/gtg_shapley_value.py:151-155 | storing a round appends exactly one value, by position, to the history of each of its clients, and keeps all others |
| GtgShapley.OrderingFits | python/fediux/contribution/gtg_shapley_value.py:126-133 | the indices fit exactly when the ids are contiguous from 0 or 1 |
| GtgShapley.ExampleIdsFail | python/fediux/contribution/gtg_shapley_value.py:32-32 | the ids of the source's example are not contiguous |
| GtgShapley.StoredAtOwnIndex | python/fediux/contribution/gtg_shapley_value.py:151-155 | every client is given the value computed at its own index exactly when the list is sorted |
| GtgShapley.ReversedListIsMisread | python/fediux/contribution/gtg_shapley_value.py:151-155 | for the list 2, 1 the client at position 0 has index 1 |
| GtgShapley.OrderingDrift | python/fediux/contribution/gtg_shapley_value.py:102-121 | one ordering moves the cached utility of all clients by at most one threshold |
| GtgShapley.DriftIsBounded | python/fediux/contribution/gtg_shapley_value.py:102-121 | after k orderings it is within k thresholds of the accuracy of the aggregated model |
| GtgShapley.RecordTelescopes | python/fediux/contribution/gtg_shapley_value.py:120-133 | a record's entries add up to at least the difference of the first and the last utility |
| GtgShapley.RecordKeepsGain | python/fediux/contribution/gtg_shapley_value.py:96-136 | the k-th record, counted from one, adds up to at least the gain in accuracy less k thresholds |
| GtgAverages.AveragesTotal | python/fediux/contribution/gtg_shapley_value.py:144-148 | the averaged entries add up to the average of the records' sums |
| GtgAverages.AveragesKeepGain | python/fediux/contribution/gtg_shapley_value.py:96-148 | the values of a round add up to at least the gain in accuracy less (K + 1) / 2 thresholds for K orderings |
| GtgAverages.ScanUntilStop | python/fediux/contribution/gtg_shapley_value.py:96-118 | for any utility, from a cache that is right, the utilities taken of an ordering are exact up to the first prefix about as good as all clients, and after it that of this prefix |
| GtgAverages.CacheOfScan | python/fediux/contribution/gtg_shapley_value.py:120-121 | an ordering writes the utilities it takes under the keys of their prefixes, and nothing else |
| GtgAverages.CacheHolds | python/fediux/contribution/gtg_shapley_value.py:120-121 | and all of them are there afterwards |
| GtgAverages.RecordUntilStop | python/fediux/contribution/gtg_shapley_value.py:120-133 | a client before that prefix gets exactly what it adds, when that is more than nothing, and one after it nothing |
| GtgAverages.ScanIsExact | python/fediux/contribution/gtg_shapley_value.py:96-118 | one ordering, from a cache that is right: all utilities taken are exact exactly when the prefixes after the stop are worth what the one at the stop is; then the cache stays right |
| GtgAverages.RoundIsExact | python/fediux/contribution/gtg_shapley_value.py:96-121 | over any number of orderings, all utilities taken are exact exactly when that holds for each of them |
| GtgAverages.SeparatedIsHarmless | python/fediux/contribution/gtg_shapley_value.py:102-102 | it holds of every ordering when no proper subset is as good as all clients |
| GtgAverages.AverageIsExact | python/fediux/contribution/gtg_shapley_value.py:96-148 | when truncation is harmless in each ordering, a value is the average of the client's exact clamped gains over the orderings taken |
| GtgAverages.AllOrderingsAreExact | python/fediux/contribution/gtg_shapley_value.py:96-148 | and over all orderings it is the exact Shapley value of the other assessor |
| GtgBounds.ScanIsClose | python/fediux/contribution/gtg_shapley_value.py:96-121 | for a monotone utility, with truncation and cache, one ordering adds at most one threshold to the error of what is cached and taken |
| GtgBounds.CachedUtilities | python/fediux/contribution/gtg_shapley_value.py:96-121 | after k orderings every cached utility is within k thresholds of the exact one |
| GtgBounds.EntryIsClose | python/fediux/contribution/gtg_shapley_value.py:120-133 | what a record holds of a client is off by at most twice the error of the utilities taken |
| GtgBounds.AverageIsClose | python/fediux/contribution/gtg_shapley_value.py:96-148 | a client's value is within K + 1 thresholds of the average of its exact clamped gains over the K orderings taken |
| GtgBounds.AllOrderingsAreClose | python/fediux/contribution/gtg_shapley_value.py:96-148 | over all orderings it is that close to the exact Shapley value |
| GtgBounds.ScanErrorIs | python/fediux/contribution/gtg_shapley_value.py:96-118 | for any utility, the utilities taken of an ordering are within d of the exact ones exactly when every prefix after the stop is worth within d of the one at the stop |
| GtgBounds.TruncatedValue | python/fediux/contribution/gtg_shapley_value.py:96-148 | the values of a round with one ordering: exact before the stop, and 0 after it |
| GtgBounds.TruncationHidesGain | python/fediux/contribution/gtg_shapley_value.py:102-121 | clients 0, 1, 2, where client 0 alone is as good as all: the value of client 1 is 0, and what it adds is of any size |
| MinMaxProtocol.Party.constructor | src/fediux/executor/statistics.cc:461-464 | a party starts at its first column without results |
| MinMaxProtocol.Party.Next | src/fediux/executor/statistics.cc:221-299 | what a party calls next depends only on its number and the bits it has been opened |
| MinMaxProtocol.Party.Receive | src/fediux/executor/statistics.cc:236-297 | how an opened bit or value changes a party's program |
| MinMaxProtocol.BestIsExtreme | src/fediux/executor/statistics.cc:221-387 | the value chosen by two comparisons is the minimum, for negated comparisons the maximum, of the three |
| MinMaxProtocol.ColumnRound | src/fediux/executor/statistics.cc:221-387 | at every stage of a column the three calls fit together, two inputs to a comparison and one to a sharing, and the opened bits pick the best value, ties included |
| MinMaxProtocol.RoundKeepsStep | src/fediux/executor/statistics.cc:461-485 | every round keeps the three parties in step with the right results so far |
| MinMaxProtocol.RunProtocol | src/fediux/executor/statistics.cc:461-485 | in every run, for any number of columns, the parties never disagree on an operation and all return, for every column, the value of one of them that is no worse than the other two |
| ColumnExtremes.MinOrMax | src/fediux/executor/statistics.h:157-171 | the loop over one chunk |
| ColumnExtremes.ColumnResult | src/fediux/executor/statistics.cc:400-443 | the loop over the chunks; fails without the column, and at the first chunk of an unsupported one |
| ColumnExtremes.PlainTextDataCompute | src/fediux/executor/statistics.cc:388-459 | all columns of a party; succeeds exactly when no column is missing and none with a chunk is unsupported |
| ColumnExtremes.FoldIsBound | src/fediux/executor/statistics.h:157-171 | no value of a chunk is better than its result, which is a value or the starting one |
| ColumnExtremes.LocalIsExtreme | src/fediux/executor/statistics.cc:408-443 | however a column is cut into chunks, its local result is the best of its values and of the numbers its accumulators start from |
| ColumnExtremes.LocalMinimum | src/fediux/executor/statistics.cc:410-443 | however a column with a value is cut into chunks, the local result is its minimum |
| ColumnExtremes.LocalMaximum | src/fediux/executor/statistics.cc:410-443 | the local result is the maximum of the values and the smallest positive double |
| ColumnExtremes.RunStatistic | src/fediux/executor/statistics.cc:487-505 | the statistic succeeds exactly when every column is of 32-bit or 64-bit integers or doubles, or has no chunk and another type, and gives every column the best of the three local results |
| ColumnExtremes.ExtremeExactly | src/fediux/executor/statistics.cc:388-485 | over exact numbers: for any columns, empty ones too, the result is the extreme of all rows exactly when some row is no worse than every number an accumulator started from |
| ColumnExtremes.GlobalMinimum | src/fediux/executor/statistics.cc:388-485 | when every party has a value, MIN is the minimum over all rows of all chunks of all parties |
| ColumnExtremes.MinimumOfOneKind | src/fediux/executor/statistics.cc:388-485 | over exact numbers: for columns of one kind, as soon as one party has a value |
| ColumnExtremes.EmptyChunkCounts | src/fediux/executor/statistics.h:173-179 | an empty chunk of 32-bit integers counts as 2147483647 against the other parties |
| ColumnExtremes.EmptyChunks | src/fediux/executor/statistics.h:173-202 | over exact numbers: what a column of each kind counts as with one empty chunk, and without chunks |
| ColumnExtremes.GlobalMaximum | src/fediux/executor/statistics.h:173-202 | MAX is the maximum over all rows exactly when some row is at least the smallest positive double |
| ColumnExtremes.NegativeMaximum | src/fediux/executor/statistics.h:189-191 | a row of -1 at every party has the smallest positive double as its MAX |
| BatchSampling.Sampler.constructor | src/fediux/algorithm/regression.h:80-83 | the pool is all rows, the cursor at its end |
| BatchSampling.Sampler.Shuffle | src/fediux/algorithm/regression.h:41-41 | the pool is rearranged in place |
| BatchSampling.Sampler.GetSubset | src/fediux/algorithm/regression.h:31-45 | ends, also for a batch longer than the pool, and what it fills in continues the permutations drawn so far |
| BatchSampling.Sampler.Advance | src/fediux/algorithm/regression.h:35-43 | one round of the loop draws at least one row, unless the cursor stood at the end; on an empty pool it draws nothing and changes nothing |
| BatchSampling.FairCounts | src/fediux/algorithm/regression.h:79-83 | any two rows have been drawn equally often, up to one |
| BatchSampling.TrainOnBatches | src/fediux/algorithm/regression.h:93-119 | over a whole training run the batches, one after the other, are whole permutations of the rows and a part of one more, so that every row is used equally often, up to one |
| BatchSampling.UsesEachInOrder | src/fediux/algorithm/regression.h:93-119 | every batch is used once and in order |
| DataAlign.AlignRows | python/fediux/plain_data_util/data_align.py:389-412 | the row loop computes the reorder buffer's state, or reads the head of an empty list |
| DataAlign.StepAligns | python/fediux/plain_data_util/data_align.py:396-412 | one row keeps what is written aligned with the longest prefix of the list that has been seen |
| DataAlign.AlwaysAligned | python/fediux/plain_data_util/data_align.py:389-412 | at every point, the rows written are those of the longest seen prefix, in list order |
| DataAlign.FailsExactly | python/fediux/plain_data_util/data_align.py:399-399 | the head of the empty list is read exactly when a row of the list comes after all keys of the list |
| DataAlign.DistinctDataset | python/fediux/plain_data_util/data_align.py:389-412 | without repeated keys it never fails, writes the one row of each key, and all of the list if every key occurs |
| DataAlign.AlwaysInOrder | python/fediux/plain_data_util/data_align.py:389-412 | on any list, with repeated keys too, what is written is a beginning of the list, key by key |
| DataAlign.WritesLatestRow | python/fediux/plain_data_util/data_align.py:389-412 | when a row makes the longest seen prefix reach beyond a place of the list, the latest row so far of the key there is written, also when keys come several times |
| DataAlign.RepeatedRowFails | python/fediux/plain_data_util/data_align.py:399-399 | one key with two rows makes the loop read the head of the empty list |
| QueryWindows.ThreadQuery | python/fediux/plain_data_util/data_align.py:73-109 | the pieces of a thread's window are the window, in order |
| QueryWindows.MultithreadQuery | python/fediux/plain_data_util/data_align.py:121-138 | the threads' windows follow each other from the iteration's base |
| QueryWindows.FullIterations | python/fediux/plain_data_util/data_align.py:269-284 | the full iterations query a prefix of the ids, in order |
| QueryWindows.QueryAll | python/fediux/plain_data_util/data_align.py:253-313 | all positions queried, with the last iteration based on the remaining threads |
| QueryWindows.QueriedLength | python/fediux/plain_data_util/data_align.py:323-325 | as many positions are queried as there are ids |
| QueryWindows.PartitionsExactly | python/fediux/plain_data_util/data_align.py:286-290 | every position is queried once exactly when there is no full iteration or no thread remains |
| QueryWindows.FullWidthPartitions | python/fediux/plain_data_util/data_align.py:129-129 | with the base of the full number of threads, every position is queried once, in order |
| QueryWindows.SizesOfBatches | python/fediux/plain_data_util/data_align.py:256-261 | batches of 1000, 10000 and 100000 ids |
| QueryWindows.QueriedIs | python/fediux/plain_data_util/data_align.py:266-313 | what is queried, by how many batches the threads get and how many are left |
| QueryWindows.TwoThreadsThreeBatches | python/fediux/plain_data_util/data_align.py:286-290 | two threads and 3000 ids: a thousand ids are queried twice and a thousand never |
| QueryWindows.FortyThousand | python/fediux/plain_data_util/data_align.py:256-290 | three threads and 40000 ids: 30000 are queried in order, and then those from 10000 to 20000 again |
| QueryWindows.FourHundredThousand | python/fediux/plain_data_util/data_align.py:256-290 | three threads and 400000 ids: 300000 in order, and then those from 100000 to 200000 again |
| MultiLineComments.StartsAndEnds | external/cpplint.py:1858-1875 | without the spaces at its ends, a line starts a comment that goes on when it starts with `/*` and has no `*/` after that, and ends one when it ends with `*/` |
| MultiLineComments.StartLine | external/cpplint.py:1858-1866 | " /* a" starts a comment and ends none |
| MultiLineComments.EndLine | external/cpplint.py:1869-1875 | "a */ " ends a comment and starts none |
| MultiLineComments.BothOnOneLine | external/cpplint.py:1858-1875 | "/*/" does both |
| MultiLineComments.RemovedIsBlank | external/cpplint.py:1883-1883 | what a line of a comment becomes starts none |
| MultiLineComments.FindNext | external/cpplint.py:1858-1875 | the next line with a mark, or the number of lines |
| MultiLineComments.RemoveMultiLineCommentsFromRange | external/cpplint.py:1878-1883 | blanks a range of lines in place and nothing else |
| MultiLineComments.RemoveMarked | external/cpplint.py:1886-1899 | the search ends, and what it leaves is the line by line reading up to a comment that never ends |
| MultiLineComments.RemoveMultiLineComments | external/cpplint.py:1886-1899 | the same for the marks of C comments |
| MultiLineComments.ReadingIsUnique | external/cpplint.py:1886-1899 | the reading determines the outcome |
| MultiLineComments.UnclosedIsOpen | external/cpplint.py:1894-1897 | an error is reported exactly when the reading ends inside a comment |
| MultiLineComments.RemovedTwice | external/cpplint.py:1886-1899 | without an error no comment start is left, and a second pass changes nothing |
| MultiLineComments.ChangesOnlyComments | external/cpplint.py:1878-1899 | exactly the lines of comments that end are changed |
| NestingStack.NestingState.constructor | external/cpplint.py:2918-2939 | both stacks start empty |
| NestingStack.NestingState.UpdatePreprocessor | external/cpplint.py:3034-3088 | the whole new state for an if, an else, an endif and any other line |
| NestingStack.NestingState.Update | external/cpplint.py:3091-3113 | a directive, or an ordinary line's own update of the stack |
| NestingStack.NestingState.ProcessLines | external/cpplint.py:6505-6508 | the state after all lines of a file |
| NestingStack.DirectiveIsWord | external/cpplint.py:3055-3074 | a line of spaces, `#`, spaces and a whole word is the directive of that word |
| NestingStack.DirectiveWords | external/cpplint.py:3055-3074 | the six words are if, ifdef, ifndef; else, elif; endif; any other word makes an ordinary line |
| NestingStack.IfdefLine | external/cpplint.py:3055-3055 | "#ifdef SWIG" is an if |
| NestingStack.ElseLine | external/cpplint.py:3059-3059 | "#else" is an else |
| NestingStack.EndifLine | external/cpplint.py:3074-3074 | "  # endif" is an endif |
| NestingStack.DirectiveHasForm | external/cpplint.py:3055-3074 | and only such lines are directives |
| NestingStack.StepIsSimple | external/cpplint.py:3034-3088 | one line of the saving machine is one line of a machine that saves nothing and skips the branches not taken |
| NestingStack.RunIsSimple | external/cpplint.py:3034-3088 | so on every text, well-nested or not |
| NestingStack.KeptTextIsLive | external/cpplint.py:3045-3052 | on every text, leaving out what an else makes dead leaves the live stack; outside such branches that is the stack itself |
| NestingStack.WellNestedRun | external/cpplint.py:3045-3052 | a well-nested text, wherever it stands, has the effect of its first branches and leaves the checkpoints as they were |
| NestingStack.ElseStartsBeforeIf | external/cpplint.py:3069-3070 | on well-nested text, every else branch is read with the stack there was before the if |
| NestingStack.ElseInFile | external/cpplint.py:3034-3070 | after "#ifdef SWIG", any ordinary line and "#else" the stack is what it was |
| NestingStack.ElsesDoNotCount | external/cpplint.py:3034-3088 | on well-nested text, deleting every else branch leaves the same stack and checkpoints |
| BracketScan.DropTemplates | external/cpplint.py:2050-2051 | takes the template brackets off the top of the stack |
| BracketScan.FindEndOfExpressionInLine | external/cpplint.py:2014-2089 | the loop over one line, with all its cases |
| BracketScan.FindStartOfExpressionInLine | external/cpplint.py:2136-2210 | the backward loop over one line, with all its cases |
| BracketScan.CloseExpression | external/cpplint.py:2092-2133 | the search over the lines; a place past the closing bracket, or the number of lines and -1 |
| BracketScan.ReverseCloseExpression | external/cpplint.py:2213-2248 | the backward search over the lines; the place of the opening bracket, or 0 and -1 |
| BracketMatching.ScanWord | external/cpplint.py:2028-2061 | a balanced word leaves the stack as it was |
| BracketMatching.FoundMeansBalanced | external/cpplint.py:2028-2061 | a search that ends has read a balanced word for every bracket on its stack |
| BracketMatching.ScanFinds | external/cpplint.py:2014-2089 | a bracket is closed exactly at the end of the balanced word after it |
| BracketMatching.BackIsMirror | external/cpplint.py:2136-2210 | the backward search is the forward search of the mirror image |
| BracketMatching.BackFinds | external/cpplint.py:2136-2210 | a bracket is opened exactly before the balanced word that leads to it |
| BracketLines.EndStepIsBare | external/cpplint.py:2028-2088 | one character does to the stack, without the template brackets on it, what it does to a stack of ( [ and { alone |
| BracketLines.StartStepIsBare | external/cpplint.py:2150-2209 | the same for the backward search |
| BracketLines.CloseFromIsScan | external/cpplint.py:2120-2133 | the search over lines from a bracket ( [ or { is one search of their joined text for these brackets, whatever is guessed about < and > |
| BracketLines.ClosesBalancedWord | external/cpplint.py:2092-2133 | from an opening bracket, exactly the place where the balanced word after it is closed for the first time |
| BracketLines.OpenFromIsBack | external/cpplint.py:2229-2245 | the same for the backward search |
| BracketLines.BackAndForth | external/cpplint.py:2213-2248 | on any text, for an opening and a closing bracket on any lines, forward finds the one exactly when backward finds the other |
| BracketLines.ReturnsToStart | external/cpplint.py:2092-2248 | on any text, back from whatever the forward search finds is exactly where it started |
| BracketTemplates.ForwardOver | external/cpplint.py:2014-2089 | on a line on which nothing has to be guessed, the forward search passes every balanced word, templates too |
| BracketTemplates.BackwardOver | external/cpplint.py:2136-2210 | and so does the backward search |
| BracketTemplates.TemplateMatches | external/cpplint.py:2092-2248 | there a template bracket is closed at the end of the balanced word after it, and back from there is where it started |
| BracketGuesses.ArrowIsNoBracket | external/cpplint.py:2067-2070 | forward, the > of an arrow closes no template |
| BracketGuesses.ShiftIsNoBracket | external/cpplint.py:2116-2117 | a shift and a comparison open none |
| BracketGuesses.ShiftInTemplate | external/cpplint.py:2034-2039 | the first < of a shift inside a template is taken back with the second |
| BracketGuesses.SemicolonGivesUp | external/cpplint.py:2079-2086 | a semicolon ends the search for the end of a template |
| BracketGuesses.OperatorIsNoBracket | external/cpplint.py:2040-2042 | the < of an operator's name opens none |
| BracketGuesses.OperatorShift | external/cpplint.py:2034-2039 | two of them after an operator's name end the search |
| BracketGuesses.OperatorGreater | external/cpplint.py:2067-2070 | forward, the > of an operator's name is taken for the end of a template, since the text examined stops one character before it |
| BracketGuesses.OperatorGreaterBackward | external/cpplint.py:2161-2165 | backward, it is not |
| BracketGuesses.ArrowBackward | external/cpplint.py:2161-2165 | backward, the > of an arrow opens no template |
| BracketGuesses.ComparisonBackward | external/cpplint.py:2161-2165 | nor does that of a comparison with spaces around it |
| BracketGuesses.ComparisonForward | external/cpplint.py:2064-2078 | which forward is taken for the end of a template |
| BracketGuesses.ShiftBackward | external/cpplint.py:2171-2173 | backward, a shift is passed over |
| BracketGuesses.SemicolonBackward | external/cpplint.py:2199-2206 | backward, a semicolon ends the search for the start of a template |

## Left out

- Networking, channels, threads, files, databases, logging and configuration.
- Secrecy: nothing is claimed about what parties learn.
- The library's products, quotients, comparisons and sharings are taken as some consistent sharing of the right values; its protocols (src/fediux/operator/aby3_operator.h:678-1010) are not part of this model.
- Rounding: doubles and fixed-point numbers are reals, and the conversion of a literal to a number is a parameter, which may fail in a floating-point run.
- ExpressRun.MpcExpressExecutor.ResolveRunMode: getColumnDtype raises an exception for a token that is no column (src/fediux/executor/express.cc:55-59), though resolveRunMode means to classify it as a number (src/fediux/executor/express.cc:634-644); the model follows the intention, and its third result tells when the exception would be raised.
- Expressions: columns are taken to have the length that was configured.
- ExpressRun.EvaluateBothWays: needs an operator, no operator on two constants (the code has no share to work with otherwise, src/fediux/executor/express.cc:884-889) and operands that are columns or numerals (the conversion throws otherwise); `ExpressRun.FaultsTogether` shows that the evaluators stop on all others. So does `ExpressRun.EvaluateJointly`.
- ExpressRun.MpcExpressExecutor.RunMpcEvaluate: the three parties are one object that runs in lock step, because they run the same program on the same stack.
- Reading beyond the end of a text and popping an empty stack have no defined effect in the source; they end the model's run.
- Shapley values: tuples are sequences in list order, utilities are an arbitrary function of the subset, and aggregating models is part of that function. The remaining assessors (leave-one-out and TMC) repeat these cores.
- ShapleyRounds.MRShapleyValue.Run: for client lists without a repeated id, since a tuple that repeats a client stands for no set of clients.
- The stopping rule of the permutation sampler has no termination measure; a round is given its orderings, in any number. Its random seeds and its own final assignment (python/fediux/contribution/gtg_shapley_value.py:185-233) are not modelled.
- GtgShapley.GTGShapleyValue.Run: the orderings of the round are given, see above; client ids are not negative, since a negative index would count from the end of the record.
- GtgAverages.AverageIsExact: that harmless truncation is also necessary is stated of the utilities taken (`GtgAverages.RoundIsExact`), not of a value, in which errors of several orderings can cancel; so it is in `GtgAverages.AllOrderingsAreExact`.
- GtgBounds.AverageIsClose: for monotone utilities, as is `GtgBounds.AllOrderingsAreClose`. Without monotonicity the error has no bound in the number of thresholds alone (`GtgBounds.TruncationHidesGain`); for one ordering it is then what the prefixes after the stop differ by (`GtgBounds.ScanErrorIs`).
- Minimum and maximum: a comparison is taken to answer 1 exactly when the lower-numbered party's input is smaller.
- ColumnExtremes.ColumnResult: a column of integers whose table type is neither 32 nor 64 bits wide is not modelled (the code skips its chunks).
- ColumnExtremes.GlobalMinimum: for parties that all have a value; `ColumnExtremes.ExtremeExactly` covers empty columns.
- ColumnExtremes.RunStatistic: when a party fails before the protocol, the others would wait for it; the model ends the run.
- Sampling: the shuffle is an arbitrary permutation, the arithmetic of a training step an arbitrary update.
- BatchSampling.TrainOnBatches: without rows only for empty batches, as is `BatchSampling.Sampler.GetSubset`; otherwise the source's loop never ends, since a round of it changes nothing (`BatchSampling.Sampler.Advance`).
- DataAlign.StepAligns: for intersection lists without repeated keys, as are `DataAlign.AlwaysAligned` and `DataAlign.FailsExactly`; on others `DataAlign.AlwaysInOrder` holds, but how far the writing gets depends on the order of the rows. So is `DataAlign.WritesLatestRow`.
- Join: the exception for an empty intersection list and a key that is made of several fields are outside the row loop.
- Windows: what a database returns for a window, and the sorting of a batch of rows, are not modelled; a window is its positions.
- Style checker: the regular-expression checks, and what the guesses about `<` and `>` are worth. Whitespace and word characters are ASCII.
- BracketTemplates.TemplateMatches: from a template bracket, for words on one line without shifts, arrows, comparisons and operators' names; on others the searches guess, and disagree on the inputs of `BracketGuesses.ComparisonForward` and `BracketGuesses.OperatorGreater`.
- NestingStack.NestingState.Update: what an ordinary line does to the stack is an arbitrary function, and a directive line is taken to do nothing else (external/cpplint.py:3114-3240).
- The stack that a checkpoint saves is a value; the source copies it, so nothing is shared.
