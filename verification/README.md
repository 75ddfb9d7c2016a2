# Verified models of the study projects

This project models the algorithms that the repository's study projects are built around, and proves what they are for.
To verify: `dafny verify dfyconfig.toml`. Integers are unbounded and the filter's numbers are exact reals.

| file | what it models |
|---|---|
| `Results.dfy`, `Sums.dfy` | `Result`/`Option`; sums over sequences with the lemmas about changing one element, and searching a sequence |
| `Lexer.dfy`, `Spelling.dfy`, `SimProgram.dfy`, `Compiler.dfy`, `Grammar.dfy`, `Interpreter.dfy` | the sim^2 language: the one-pass lexer and its spelling, character by character; the recursive-descent parser and the grammar it accepts, production by production and error by error; the tree-walking interpreter, what it computes and when it cannot panic |
| `Census.dfy`, `Rules.dfy`, `KillBounds.dfy`, `Ecosystem.dfy` | the predator-prey simulation: cells with incremental counters, creatures and rounds, against a simulation that has no counters and counts everybody anew; the rules of a turn in numbers; when prey "escapes" its kills |
| `BinarySearchTree.dfy`, `Trie.dfy` | the linked structures: insertion, parent links, stackless in-order iteration; the weighted substring score |
| `Pipeline.dfy`, `Semaphore.dfy`, `Gates.dfy`, `ThreadPool.dfy` | the concurrent protocols as step systems over all interleavings |
| `EchoBuffer.dfy` | the circular DMA buffer and the polling echo loop |
| `OrderBook.dfy`, `OrderSessions.dfy` | order matching for one share, order by order and over whole sessions |
| `SigmaPoints.dfy` | the sigma points and weights of the unscented transform |

How the parts are stated:

- Code that changes things in place is a class or a method with a loop, proved against a function or an abstract value: the
  lexer against maximal runs, the interpreter against a big-step evaluation, the simulation against a counter-free one, the
  trees against a mathematical shape, the matching loop against the exact set of orders it hits.
- The concurrent programs are states and atomic steps. Locking a mutex, the section under it (which ends by unlocking or by
  waiting), and `notify_one` are separate steps; which sleeper is woken is arbitrary, and sleepers may wake for no reason. A
  run is any sequence of enabled steps.
- Random draws, the action that a creature's program decides on, the arrival of bytes and the interleaving of threads are
  arbitrary inputs, and the theorems hold for all of them.

Things worth knowing about the code, found to be as follows and kept:

- A run of characters at the end of the text yields no token, so a program whose last `end` touches the end of the file is
  refused; white space or any further token behind it is enough (`Compiler.TextRoundTrip`). Tokens behind
  the closing `end` are ignored (`Compiler.ProgramsAreAccepted`).
- `Simulation::config` clears the creatures but not the grid, so the counters are a census afterwards exactly if they were all
  zero before (`Simulations.Simulation.Config`), and after a second configuration with no round in between exactly if the
  first placed nobody (`Simulations.ConfigureTwice`).
- Two predators can both succeed against one prey, so the visible prey of a cell can be fewer than its kills
  (`KillBounds.PreyCanEscape`). Through any run they are never fewer exactly as long as no predator that is to hunt and has
  the luck to hit comes to a cell where all visible prey is already claimed (`KillBounds.RoundsKeepBound`); that condition is
  told from the state before the turn (`KillBounds.OverkillHitsClaimedPrey`).
- `Order::trade` takes the lesser of the two whole sizes, not of what remains, and `executeTrade` puts a hit order back only if
  it exactly fills the new one. So a new order can trade more than its size (exactly when: `OrderBook.OvertradesExactly`; a
  case: `OrderBook.OvertradingExample`), a resting order can (`OrderBook.HitOrderFate`, `OrderBook.OversoldExample`), and a
  resting order can leave the book with part of it unsold (`OrderBook.HitOrderFate`, `OrderBook.AbandonedExample`). Over a
  whole session none of this happens if and only if every order is clean when it comes in (`OrderSessions.SessionIsProper`).
- The echo is the received stream, whatever the bytes are, if and only if fewer bytes than the buffer holds arrive from one
  reading of the DMA counter to the next, and what arrives during a poll does not come round to what a copy has still to take
  (`EchoBuffer.EchoIsExact`).
- A semaphore made with no permits lets no task through, in any run (`Semaphore.TasksFinishIffPermits`).

## Model

| member | source | states |
|---|---|---|
| Lexer.Tokenize | rust-intro/sim2/src/lexer.rs:116-144 | the single pass with its state machine, on every text, gives the tokens of the maximal-run reference or the same error; what it slices by character count lies at the same byte positions |
| Lexer.TokensAreMaximalRuns | rust-intro/sim2/src/lexer.rs:116-226 | tokenizing succeeds with a list of tokens if and only if the text divides into white space and maximal runs that those tokens classify in order, a run that touches the end of the text being left out |
| Lexer.LexSplitsAtWhite | rust-intro/sim2/src/lexer.rs:116-226 | white space splits: the tokens of a + w + b are those of a + w followed by those of b, and errors come from the first part that has one |
| Lexer.LexSkipsWhite | rust-intro/sim2/src/lexer.rs:124-127 | leading white space adds nothing |
| Lexer.LexableTextIsAscii | rust-intro/sim2/src/lexer.rs:120-132 | counting characters and slicing bytes agree on every prefix of characters the lexer accepts |
| Lexer.TokenReadsBack | rust-intro/sim2/src/lexer.rs:152-279 | the text of any token the lexer can produce, ended by white space, is read back as that token: keywords, operators, names, decimal constants |
| Lexer.LayoutReadsBack | rust-intro/sim2/src/lexer.rs:116-279 | tokens written one after the other, parted by white space or by a sign meeting a word, are read back in order; one that touches the end of the text yields no token |
| Lexer.LayoutReadsBackExactly | rust-intro/sim2/src/lexer.rs:116-279 | written-out tokens are read back if and only if they are so parted and the last is ended: elsewhere an empty gap merges them, fails or leaves out the last |
| Lexer.LexedTokensAreWritable | rust-intro/sim2/src/lexer.rs:152-261 | every token that comes out is a name that is no keyword, a constant from 0 to the largest signed 32-bit integer, or a fixed word or sign |
| Spelling.WhiteSpaceIsAlike | rust-intro/sim2/src/lexer.rs:170-172 | a space, tab, line feed, carriage return or form feed can stand for one another anywhere in a text, and give the same tokens or error |
| Spelling.RefusedForCharacter | rust-intro/sim2/src/lexer.rs:116-119 | a text is refused for a character if and only if one is neither one of the five white characters nor an ASCII letter or digit nor one of ( ) < > =, and what stands before the first such is not refused |
| Spelling.SpaceIsOptional | rust-intro/sim2/src/lexer.rs:193-226 | between a sign and a letter or digit, either way round, a space makes no difference |
| Spelling.FrameWords | rust-intro/sim2/src/lexer.rs:236-242 | the words that are read as `sim`, `end` and `block` |
| Spelling.ChoiceWords | rust-intro/sim2/src/lexer.rs:237-240 | the words that are read as `if`, `then` and `else` |
| Spelling.ActionWords | rust-intro/sim2/src/lexer.rs:241-245 | the words that are read as the four actions |
| Spelling.ValueWords | rust-intro/sim2/src/lexer.rs:246-250 | the words that are read as `add`, `sub` and the three built-in values |
| Spelling.StraightDirections | rust-intro/sim2/src/lexer.rs:251-257 | N, E, S and W are read as those directions |
| Spelling.SlantingDirections | rust-intro/sim2/src/lexer.rs:252-258 | NE, SE, SW and NW are read as those directions |
| Spelling.Signs | rust-intro/sim2/src/lexer.rs:269-275 | the six signs and what they are read as |
| Spelling.Names | rust-intro/sim2/src/lexer.rs:234-261 | every other word that begins with a letter and goes on with letters and digits is a name |
| Spelling.OtherSigns | rust-intro/sim2/src/lexer.rs:269-279 | every other run of signs is refused with that error, whatever follows |
| Spelling.OneDigit | rust-intro/sim2/src/lexer.rs:156-159 | a digit is read as its value |
| Spelling.MoreDigits | rust-intro/sim2/src/lexer.rs:156-159 | one more digit makes the tenfold and adds the digit, up to 2147483647, beyond which the number is refused |
| Spelling.LetterBehindNumber | rust-intro/sim2/src/lexer.rs:212-217 | a letter right behind a number is refused as a transition |
| Compiler.GetStatement | rust-intro/sim2/src/compiler.rs:277-289 | every successful parse leaves strictly fewer tokens, whichever recursion it takes |
| Compiler.GetBlock | rust-intro/sim2/src/compiler.rs:254-266 | the loop collects exactly the statements up to the matching `end`, returns what is behind it, and fails with the same error |
| Compiler.GetProgram | rust-intro/sim2/src/compiler.rs:298-307 | lexing and parsing put together as one function of the text, with both kinds of error |
| Compiler.StatementReadsBack | rust-intro/sim2/src/compiler.rs:118-289 | parsing the printed form of any statement followed by any tokens gives that statement and those tokens |
| Compiler.ParsedStatement | rust-intro/sim2/src/compiler.rs:118-289 | whatever parses is the printed form of the result followed by the rest |
| Compiler.ParserInvertsPrinter | rust-intro/sim2/src/compiler.rs:118-289 | the parser returns (s, rest) if and only if s has a concrete syntax and the tokens are its printed form followed by rest |
| Compiler.GrammarIsUnambiguous | rust-intro/sim2/src/compiler.rs:118-289 | no token list is the printed form of two statements, whatever follows |
| Compiler.WellFormedTokens | rust-intro/sim2/src/compiler.rs:118-289 | the tokens of a statement can be written down if and only if its names are no keywords and its constants lie between 0 and the largest signed 32-bit integer |
| Compiler.ProgramsAreAccepted | rust-intro/sim2/src/compiler.rs:298-307 | a token list is accepted as a program if and only if it begins with `sim`, the printed statement and `end`; what follows is ignored |
| Compiler.TextRoundTrip | rust-intro/sim2/src/compiler.rs:298-307 | a text with all the tokens of a well-formed program, parted by any white space where they would run together and followed by any tokens, compiles to that program if and only if the closing `end` does not touch the end of the text; otherwise it is refused with the error of a missing `end` |
| Compiler.CompilablePrograms | rust-intro/sim2/src/compiler.rs:298-307 | the programs that some text compiles to are exactly the well-formed ones, and their single-spaced text is one such text |
| Grammar.Directions | rust-intro/sim2/src/compiler.rs:55-67 | `move` with each of the eight directions, and any tokens behind it |
| Grammar.Actions | rust-intro/sim2/src/compiler.rs:189-214 | `hunt` and `breed` take the directions that `move` takes, and `rest` takes a constant |
| Grammar.UnendedActions | rust-intro/sim2/src/compiler.rs:189-214 | the errors of actions at the end of the tokens |
| Grammar.BadActions | rust-intro/sim2/src/compiler.rs:189-214 | the errors of actions with another token behind them |
| Grammar.BadStart | rust-intro/sim2/src/compiler.rs:277-289 | no statement begins with any other token |
| Grammar.Identifiers | rust-intro/sim2/src/compiler.rs:118-132 | an assignment of each of the five kinds of identifier |
| Grammar.Operations | rust-intro/sim2/src/compiler.rs:69-184 | an assignment of a sum, a difference and each of the three comparisons |
| Grammar.BadAssignments | rust-intro/sim2/src/compiler.rs:172-229 | the errors of an assignment up to its expression |
| Grammar.BadOperations | rust-intro/sim2/src/compiler.rs:159-165 | the errors of a sum or difference with an operand missing or wrong |
| Grammar.BadConditions | rust-intro/sim2/src/compiler.rs:143-151 | the error of a condition for each place at which it can go wrong |
| Grammar.ConditionFails | rust-intro/sim2/src/compiler.rs:172-236 | the error of a condition is that of the `if` or the assignment |
| Grammar.IfStatements | rust-intro/sim2/src/compiler.rs:233-252 | what follows the condition of an `if`, both forms and all errors |
| Grammar.Blocks | rust-intro/sim2/src/compiler.rs:254-266 | an empty block, a block with one statement more, and the errors of blocks |
| Grammar.Programs | rust-intro/sim2/src/compiler.rs:298-307 | a program is `sim`, one statement and `end`, with the error of each part |
| Interpreter.Machine.Run | rust-intro/sim2/src/program.rs:363-456 | executing in place, with one map of variables and one stream of draws, ends in the action, variables and draws of the evaluation relation, and fails exactly where that does |
| Interpreter.IdentifierStandsFor | rust-intro/sim2/src/program.rs:153-265 | what `energy`, `awakeDaily`, `rand`, a constant and a variable stand for; only a variable without a value fails |
| Interpreter.AssigningOperation | rust-intro/sim2/src/program.rs:292-370 | an assignment leaves the sum, the difference, or 1 or 0 for a comparison, of what the two identifiers stand for, the left one drawn first |
| Interpreter.Branching | rust-intro/sim2/src/program.rs:409-420 | an `if` ends as its then part exactly when the two numbers compare as the sign says, and else as its else part or with nothing done |
| Interpreter.BlockEndsAsLast | rust-intro/sim2/src/program.rs:448-455 | a block ends as its last statement, run in the state that those before it leave |
| Interpreter.SubUndoesAdd | rust-intro/sim2/src/program.rs:292-370 | adding a variable and subtracting it again gives back the first number |
| Interpreter.ExecutionFollowsPath | rust-intro/sim2/src/program.rs:216-456 | every execution, whatever the stats and draws, follows one of the paths of the statement in which both branches of every `if` are open |
| Interpreter.NeedsSuffice | rust-intro/sim2/src/program.rs:363-456 | if all that a statement needs is assigned, no path reads a variable without a value, and every path assigns what the analysis says it surely assigns |
| Interpreter.FailingPath | rust-intro/sim2/src/program.rs:216-456 | if something a statement needs is not assigned, some path fails |
| Interpreter.DefiniteAssignmentIsExact | rust-intro/sim2/src/program.rs:216-456 | the analysis asks for nothing more than is assigned if and only if no path fails |
| Interpreter.DefinitelyAssignedProgramsAreSafe | rust-intro/sim2/src/program.rs:472-477 | a program that needs no variable never reaches the failing unwrap, starting from the empty map, for all stats and draws |
| Locations.Location.Add | rust-intro/sim2/src/location.rs:66-78 | the counters gain exactly the share of a visible creature of that kind and energy |
| Locations.Location.Remove | rust-intro/sim2/src/location.rs:80-92 | the counters lose exactly that share |
| Locations.Location.Rest | rust-intro/sim2/src/location.rs:119-127 | the share of a visible creature becomes that of a resting one |
| Locations.Location.Awake | rust-intro/sim2/src/location.rs:129-141 | the share of a resting creature becomes that of a visible one |
| Locations.Location.RemoveKilledPrey | rust-intro/sim2/src/location.rs:114-117 | an eaten prey leaves the visible counter and the kills once each, and nothing else changes |
| Grids.Grid.constructor | rust-intro/sim2/src/grid.rs:35-41 | every coordinate has a cell of its own, and all counters are zero |
| Grids.Grid.PopulationIsTally | sim2-gtk/src/sim.c:433-440 | counters that are a census, summed over all cells as the check does, give the tally of the creatures over the whole grid |
| Creatures.WrapAround | rust-intro/sim2/src/creature.rs:159-169 | wrapping by comparisons is arithmetic modulo the size, for every step of at most one |
| Rules.StraightMoves | rust-intro/sim2/src/creature.rs:147-169 | north lowers y, south raises it, east raises x, west lowers it, by one and from each border to the other, at the cost of one unit of energy |
| Rules.DiagonalMoves | rust-intro/sim2/src/creature.rs:147-157 | a diagonal move leads where its two straight moves lead, at the cost of one |
| Rules.MoveBack | rust-intro/sim2/src/creature.rs:137-169 | a move and the opposite one lead back, wherever the creature stands |
| Creatures.Creature.ChangeEnergy | rust-intro/sim2/src/creature.rs:101-116 | crossing the breeding threshold either way moves the creature's share in the counters with it, in its own cell alone |
| Creatures.Creature.Move | rust-intro/sim2/src/creature.rs:137-176 | the creature moves to the neighbouring cell of the torus, found by comparisons, loses one unit of energy, and the counters of both cells follow |
| Creatures.Creature.Rest | rust-intro/sim2/src/creature.rs:179-188 | the creature turns invisible at the cost of its rest and the counters follow |
| Creatures.Creature.Hunt | rust-intro/sim2/src/creature.rs:192-205 | prey grazes, a predator with prey around wins or loses against the roll; energy, count-down, counters and kills are those of the creature-level rule |
| Creatures.Creature.Breed | rust-intro/sim2/src/creature.rs:207-241 | with a partner the creature bears two resting young and hides, without it only moves; the counters gain the young and follow the parent |
| Creatures.Creature.IsEaten | rust-intro/sim2/src/creature.rs:243-253 | a visible prey in a cell with a kill dies, its share leaves the counters and the kill is used up; otherwise nothing changes |
| Creatures.Creature.Act | rust-intro/sim2/src/creature.rs:255-315 | one whole turn, in every branch: new state, young, counters and kills are those of the creature-level rule, and a dead creature has no share left |
| Census.MovesAddUp | rust-intro/sim2/src/creature.rs:137-169 | any sequence of moves lands at the summed displacement modulo the size of the grid and stays in bounds |
| Rules.TallyCounts | rust-intro/sim2/src/location.rs:66-141 | a counter should be the number of live creatures of the kind in the cell that are visible, visible and above 25, or not visible |
| Rules.EatenTurn | rust-intro/sim2/src/creature.rs:243-273 | a visible prey where a kill waits dies, and that kill is used up; nothing else changes |
| Rules.WaitingTurn | rust-intro/sim2/src/creature.rs:255-275 | a creature whose action has not run out only grows older |
| Rules.MovingTurn | rust-intro/sim2/src/creature.rs:275-289 | a move leads to the neighbouring cell and costs 1; doing nothing costs nothing; both make the creature visible |
| Rules.RestingTurn | rust-intro/sim2/src/creature.rs:179-188 | a rest costs 1 below 8, 5 from 24 on, and between nothing; it hides the creature for its count and begins its day anew |
| Rules.HuntingTurn | rust-intro/sim2/src/creature.rs:192-205 | grazing gains 1 in all; a predator without visible prey at its destination loses 1, with more energy than the roll it gains 14, rests 3 turns and leaves one kill there, and else loses 11 |
| Rules.BreedingTurn | rust-intro/sim2/src/creature.rs:207-241 | a creature with a partner loses 26 in all, hides for 6 turns and bears two young with 99 units who hide beside it; without one it has only moved |
| Rules.YoungAreBorn | rust-intro/sim2/src/creature.rs:207-215 | a turn adds young if and only if the creature is not eaten, its action has run out, it is to breed, and at its destination at least two of its kind, itself counted after its move, are visible and above 25 |
| Rules.WhoGoesOn | rust-intro/sim2/src/simulation.rs:52-63 | exactly the creatures of a round with energy left go on, in their order, and the newborn ones come behind them |
| Rules.PlacedCreatures | rust-intro/sim2/src/creature.rs:59-87 | a creature is placed with 100 units of energy, visible and about to act |
| Census.TurnKeepsCensus | rust-intro/sim2/src/creature.rs:255-315 | if the counters were a census of the live creatures, newborn ones included, they are one after a turn |
| Census.RoundKeepsCensus | rust-intro/sim2/src/simulation.rs:52-63 | dropping the dead and appending the newborn creatures keeps the census |
| Census.CensusIsSane | sim2-gtk/src/sim.c:442-456 | under the census no counter of creatures is negative, in every cell and for both kinds; nor are there more breeders than visible creatures |
| Census.StepKeepsBalance | rust-intro/sim2/src/creature.rs:192-253 | through any turn, in each cell the kills still to be eaten are the successful hunts minus the prey eaten, and never negative |
| Census.RoundsKeepBalance | rust-intro/sim2/src/creature.rs:192-253 | the same over any number of rounds |
| Census.GainedIsCensus | rust-intro/sim2/src/simulation.rs:108-135 | counters that gain the census of all creatures are a census if and only if they were zero before |
| KillBounds.OverkillHitsClaimedPrey | rust-intro/sim2/src/creature.rs:188-205 | a turn adds a kill where all visible prey is already claimed if and only if, before it, the creature is a predator that does not rest, is to hunt, has more energy left after the move than the roll, and its destination holds visible prey with as many kills |
| KillBounds.StepKeepsBound | sim2-gtk/src/sim.c:464-465 | if in every cell the kills are within the visible prey, they still are after a turn if and only if the turn is no overkill, a condition on the state before it |
| KillBounds.RoundsKeepBound | sim2-gtk/src/sim.c:464-465 | through any number of rounds the bound holds before and after every turn if and only if no turn is such an overkill |
| KillBounds.RunsKeepBound | sim2-gtk/src/sim.c:464-465 | the same for every run from the first state of a simulation, where nobody is killed yet |
| KillBounds.PreyCanEscape | rust-intro/sim2/src/creature.rs:192-205 | on a grid of one cell two predators hit one prey in turn, and then two kills wait for one visible prey |
| Simulations.Retain | rust-intro/sim2/src/simulation.rs:59 | exactly the living creatures are kept, in order |
| Simulations.Simulation.Config | rust-intro/sim2/src/simulation.rs:108-139 | predators and prey are placed in order; the counters are a census afterwards if and only if they were all zero before |
| Simulations.Simulation.TakeTurn | rust-intro/sim2/src/creature.rs:255-315 | on a counted grid, acting on the counters is acting on a fresh count of all creatures, and leaves the counters a census |
| Simulations.Simulation.Iteration | rust-intro/sim2/src/simulation.rs:52-63 | one round refines the round of the counter-free simulation, survivors first and newborn creatures behind, and keeps the census |
| Simulations.Simulation.PopulationMatches | sim2-gtk/src/sim.c:433-470 | the counters for visible and resting creatures of all cells add up to the length of the list, whenever the counters are a census |
| Simulations.Simulation.SanityChecks | sim2-gtk/src/sim.c:442-463 | with the census and the balance of kills, no counter of any cell is negative, kills included, and breeders are within the visible creatures for both kinds |
| Simulations.Simulation.EscapeCheck | sim2-gtk/src/sim.c:464-465 | the check on the counters of all cells holds exactly if the kills are within the visible prey counted anew |
| Simulations.ConfigureTwice | rust-intro/sim2/src/simulation.rs:108-139 | after configuring a new simulation twice, the counters are a census if and only if the first configuration placed nobody |
| Simulations.Simulate | rust-intro/sim2/src/simulation.rs:25-139 | every run of any length from one configuration of a new simulation is the run of the counter-free simulation, with the census and the balance of kills intact, and kills within the visible prey if no turn was an overkill |
| BinarySearchTree.Search | cpp-concepts/src/binary_search_tree.cpp:229-239 | finds the node with the value, or null exactly if the tree has none |
| BinarySearchTree.Tree.Add | cpp-concepts/src/binary_search_tree.cpp:243-271 | the links become those of the grown shape, a duplicate changes nothing, and the cached first node and the count are updated for the whole tree |
| BinarySearchTree.Tree.Insert | cpp-concepts/src/binary_search_tree.cpp:178-184 | the values gain the inserted one, order and parent links hold, the cached first node is the leftmost and the count the number of nodes |
| BinarySearchTree.Tree.FromList | cpp-concepts/src/binary_search_tree.cpp:110-114 | the tree of a list holds exactly its values |
| BinarySearchTree.FirstOfGrown | cpp-concepts/src/binary_search_tree.cpp:247-253 | comparing with the cached first node alone keeps it the leftmost, wherever in the tree the new node hangs |
| BinarySearchTree.OneNodePerElement | cpp-concepts/src/binary_search_tree.cpp:247-254 | an ordered tree has one node for each distinct value, so the count of nodes is the size of the set |
| BinarySearchTree.InorderSuccessor | cpp-concepts/src/binary_search_tree.cpp:338-360 | from any node, following pointers down or up ends at the next node of the in-order sequence, or at null behind the last |
| BinarySearchTree.Tree.Traverse | cpp-concepts/src/binary_search_tree.cpp:65-68 | walking from the first node to null visits the in-order sequence |
| BinarySearchTree.OrderedIsIncreasing | cpp-concepts/src/binary_search_tree.cpp:243-271 | the in-order sequence of an ordered tree is strictly increasing |
| BinarySearchTree.IterateList | cpp-concepts/src/binary_search_tree.cpp:376-377 | iterating over the tree of any list visits exactly its distinct values, once each, in increasing order |
| Trie.Node.AddChild | cpp-concepts/src/tree.cpp:25-33 | the child for the character is the existing one, or a new empty one, and the rest of the trie is as before |
| Trie.Node.AddWord | cpp-concepts/src/tree.cpp:35-43 | the entry is filed at the end of the list of exactly that word, nodes being made on the way |
| Trie.LookFiled | cpp-concepts/src/tree.cpp:35-43 | filing under one word changes what is stored under that word alone |
| Trie.CreateNode | cpp-concepts/src/tree.cpp:74-80 | the trie of a list of genes is the one grown by filing them one by one |
| Trie.GrownHoldsEntries | cpp-concepts/src/tree.cpp:74-80 | under every word are the indices and weights of exactly the genes equal to it, duplicates included, in order |
| Trie.EntriesIncrease | cpp-concepts/src/tree.cpp:74-80 | every list is strictly increasing in the index |
| Trie.Node.OwnScore | cpp-concepts/src/tree.cpp:45-56 | in spite of the early break, the loop adds up all weights with an index in the range |
| Trie.Node.Score | cpp-concepts/src/tree.cpp:58-72 | the nested loops, stopping where the trie ends, add up the lists of all substrings of the string |
| Trie.TrieScoresAsScan | cpp-concepts/src/tree.cpp:58-72 | that sum is the naive score: over all genes with an index in the range, weight times the number of occurrences |
| Trie.ScoreOf | cpp-concepts/src/tree.cpp:58-80 | building the trie of non-empty genes and asking for a score gives the naive score, for every string and range |
| Trie.ScoreParts | cpp-concepts/src/tree.cpp:45-72 | the score of a range of indices is that of its two parts, wherever it is parted |
| Trie.ScoreOfOne | cpp-concepts/src/tree.cpp:45-72 | the score of one index is its weight times the number of places at which the gene stands in the string, and nothing where there is no gene |
| Pipeline.StepKeepsInv | cpp-concepts/src/parallel2.cpp:117-165 | every step of every thread conserves the elements, keeps the -1 in one place, and loses no wake-up |
| Pipeline.LastMeansAllTaken | cpp-concepts/src/parallel2.cpp:153-165 | in every run, once any consumer has seen the -1 all elements have been taken |
| Pipeline.ReturnedConsumersTookAll | cpp-concepts/src/parallel2.cpp:145-175 | when all consumers have returned, what they took adds up to the number produced and the queue is exactly [-1] |
| Pipeline.NoDeadlock | cpp-concepts/src/parallel2.cpp:120-165 | unless all threads have returned, one can go on without anybody waking for no reason |
| Pipeline.RunsAreShort | cpp-concepts/src/parallel2.cpp:145-175 | no run is longer than seven steps for each element and thread, and three more for each wake-up for no reason |
| Pipeline.EveryRunCanEnd | cpp-concepts/src/parallel2.cpp:167-175 | every run can be continued until all threads have returned, and then everything has been taken |
| Semaphore.SemaphoreIsSafe | cpp-concepts/src/parallel2.cpp:194-222 | in every run free permits and holders add up to the initial count, so holders never exceed it, and no free permit is left with all the others asleep and no notification under way |
| Semaphore.NoDeadlock | cpp-concepts/src/parallel2.cpp:200-232 | with a permit to go round, no reachable state is stuck |
| Semaphore.RunsAreShort | cpp-concepts/src/parallel2.cpp:224-243 | no run is longer than seven steps for each task, and three more for each wake-up for no reason |
| Semaphore.TasksFinishIffPermits | cpp-concepts/src/parallel2.cpp:194-243 | from whatever a run has come to, all tasks can still finish if and only if there was a permit to begin with or there is no task |
| Gates.AdditionsComeFirst | cpp-concepts/src/parallel2.cpp:296-382 | with a barrier or a latch, once any thread doubles every addition has been made |
| Gates.ResultIsDetermined | cpp-concepts/src/parallel2.cpp:296-394 | every complete run with n adders and m doublers ends with (1 + 3 n) 2^m |
| Gates.DemosEndWith512 | cpp-concepts/src/parallel2.cpp:327-394 | five adders and five doublers end with 512, with a barrier as with a latch |
| Gates.EveryRunCanEnd | cpp-concepts/src/parallel2.cpp:327-394 | every run can be continued until all threads have finished, with that result |
| ThreadPool.StepKeepsInv | rust-intro/hello/src/lib.rs:38-85 | every step keeps the channel the slice of what was sent and not yet taken, each begun job finished or in one worker's hands, and one Terminate for each stopped worker |
| ThreadPool.JobsComeFirst | rust-intro/hello/src/lib.rs:38-52 | in every run no job sits behind a Terminate, and jobs are begun in the order of submission |
| ThreadPool.ShutdownIsClean | rust-intro/hello/src/lib.rs:47-61 | when the last join has returned, each worker has taken exactly one Terminate, every job has run exactly once and the channel is empty |
| ThreadPool.NoDeadlock | rust-intro/hello/src/lib.rs:47-84 | no reachable state before the last join is stuck, although a worker holds the mutex while it blocks in recv |
| ThreadPool.RunsAreShort | rust-intro/hello/src/lib.rs:47-84 | no run is longer than four steps for each job and seven for each worker |
| ThreadPool.EveryRunCanEnd | rust-intro/hello/src/lib.rs:47-61 | every run can be continued until the last join returns, and then every job has run once |
| EchoBuffer.Port.Arrive | stm32-echo-server/app.cpp:228-233 | a received byte goes to the next place of the ring, and the counter starts over behind the last |
| EchoBuffer.RingPiece | stm32-echo-server/app.cpp:243-251 | a piece of the ring holds, place by place, the newest received bytes that went there |
| EchoBuffer.Port.Poll | stm32-echo-server/app.cpp:240-255 | a poll transmits, place by place, exactly the received bytes that the ring holds when each of its copies is made, as many as came since the last poll modulo the size; every copy stays in its buffer |
| EchoBuffer.WholeMeansRightSources | stm32-echo-server/app.cpp:244-253 | each place of a poll is filled from the byte meant for it if and only if neither the first copy nor, when there are two, the second is overrun |
| EchoBuffer.Echo | stm32-echo-server/app.cpp:240-270 | over any run the port sends exactly the chunks of its polls, byte for byte |
| EchoBuffer.EchoLength | stm32-echo-server/app.cpp:240-270 | the echo is as long as the stream up to the last poll if and only if no gap brings 32 bytes or more, and never longer |
| EchoBuffer.FirstPollInNumbers | stm32-echo-server/app.cpp:240-255 | up to 31 bytes that came before the first poll are echoed, and of 32 none is |
| EchoBuffer.EchoIsExact | stm32-echo-server/app.cpp:240-270 | for any timing of arrivals, the echo is the stream up to the last poll for all bytes that could arrive if and only if no gap brings 32 bytes or more and no copy is overrun |
| OrderBook.InsertKeepsOrder | cpp-concepts/src/buy_sell.cpp:97-103 | inserting keeps price-then-arrival order and adds exactly the order |
| OrderBook.PriceThenArrival | cpp-concepts/src/buy_sell.cpp:97-103 | a book is in order if and only if its bids go down in price, or its offers up, and at one price the count goes up |
| OrderBook.PricesMeet | cpp-concepts/src/buy_sell.cpp:109-116 | two orders can trade if and only if one is a bid, the other an offer, and the bid gives at least what the offer asks |
| OrderBook.ProfitInNumbers | cpp-concepts/src/buy_sell.cpp:121-133 | a trade brings the lesser size times the distance of the prices if exactly one side is ours, and else nothing |
| OrderBook.Match | cpp-concepts/src/buy_sell.cpp:239-260 | the orders hit are exactly the first ones of the book, as far as they can trade and the new order is not exactly filled; what is left of the book, the quantity traded and the profits follow |
| OrderBook.HitsInNumbers | cpp-concepts/src/buy_sell.cpp:239-258 | every hit order is priced no worse than the new one; the loop stops exactly where the lesser sizes add up to the new size, or with strictly worse prices left alone |
| OrderBook.BookInNumbers | cpp-concepts/src/buy_sell.cpp:244-254 | each hit order has traded the lesser size more and leaves, but for the last, which goes back to the front exactly if it filled the new one and has not traded its size |
| OrderBook.RestStaysUncrossed | cpp-concepts/src/buy_sell.cpp:239-260 | trading leaves nothing that could trade with the own side |
| OrderBook.UnfilledIsUncrossed | cpp-concepts/src/buy_sell.cpp:257-265 | a new order that is not filled leaves nothing it could trade with |
| OrderBook.MatchBalances | cpp-concepts/src/buy_sell.cpp:121-133 | what the new order trades is what the orders of the other side trade |
| OrderBook.MatchAccounts | cpp-concepts/src/buy_sell.cpp:242-256 | each order of the other side is afterwards in the book or among those that left it, once; whether it was filled is another matter |
| OrderBook.OvertradesExactly | cpp-concepts/src/buy_sell.cpp:121-133 | a new order trades more than its size if and only if the tradeable orders offer more and nowhere along the way add up to its size |
| OrderBook.OvertradingExample | cpp-concepts/src/buy_sell.cpp:121-133 | a bid for 10 that meets offers of 4 and 10 trades 14 |
| OrderBook.HitOrderFate | cpp-concepts/src/buy_sell.cpp:242-256 | for each hit order: it has then traded more than its size if and only if it was partly traded with less left than the new order's size; it leaves with part unsold if and only if it is not the first hit and has more left than that; it rests again if and only if it was the last, filled the new order exactly and is not filled itself |
| OrderBook.OversoldRests | cpp-concepts/src/buy_sell.cpp:249-254 | something on the other side comes to rest with more traded than its size if and only if the last hit order is oversold and fills the new one exactly |
| OrderBook.OversoldExample | cpp-concepts/src/buy_sell.cpp:249-254 | an offer of 10 with 6 sold meets a bid for 6 and rests with 12 traded |
| OrderBook.AbandonedExample | cpp-concepts/src/buy_sell.cpp:242-256 | a bid for 10 meets offers of 4 and 20: the larger leaves with 10 unsold, and the bid, having traded 14, is to rest |
| OrderBook.Share.ExecuteTrade | cpp-concepts/src/buy_sell.cpp:239-267 | both books, the orders that leave them and the profits are as the match says; trades happen at prices that meet, and opposite a new order that is not filled only strictly worse prices are left; the books stay in order and uncrossed, no order rests with exactly its size traded, and the two sides have traded the same |
| OrderSessions.HitsAreUnique | cpp-concepts/src/buy_sell.cpp:242-260 | there is exactly one number of orders after which the loop stops |
| OrderSessions.StepIsProper | cpp-concepts/src/buy_sell.cpp:239-267 | after an order all orders have traded at most their size, and all that left exactly their size, if and only if that was so before and the order is clean, which can be told from the book beforehand |
| OrderSessions.SessionIsProper | cpp-concepts/src/buy_sell.cpp:239-267 | over any session of orders of no negative size, all orders are so treated if and only if each was clean when it came in |
| OrderSessions.OversoldSession | cpp-concepts/src/buy_sell.cpp:239-267 | an offer of 10 and two bids for 6 at its price leave the offer resting with 12 traded |
| OrderSessions.Process | cpp-concepts/src/buy_sell.cpp:239-267 | after any sequence of orders the books are those of the session: they hold bids here and offers there, the better price first and at one price the earlier order; every resting bid is priced strictly below every resting offer, bids and offers have traded the same quantity, every order is resting or gone once, and all are properly treated if and only if each was clean |
| SigmaPoints.GenerateSigmaPoints | kalman-filter/src/captstone_utils.h:35-52 | the points are the state, and for each column the state moved by the stretched column both ways, in that order |
| SigmaPoints.PointsInNumbers | kalman-filter/src/captstone_utils.h:43-49 | component by component, the two points of a column are the state plus and the state minus the stretched column, in that order |
| SigmaPoints.GenerateSigmaWeights | kalman-filter/src/captstone_utils.h:54-68 | the weights are (3 - n)/3 once and 1/6 for all 2n others |
| SigmaPoints.WeightsSumToOne | kalman-filter/src/captstone_utils.h:54-68 | the weights sum to 1 in every dimension |
| SigmaPoints.MeanIsExact | kalman-filter/src/captstone_utils.h:35-68 | for every affine image of the points the weighted mean is the image of the state |
| SigmaPoints.CovarianceIsExact | kalman-filter/src/captstone_utils.h:35-68 | for any two affine images the weighted products of deviations sum to the bilinear form of the covariance |
| SigmaPoints.FormOfGram | kalman-filter/src/captstone_utils.h:43-48 | the form of L times its transpose is the sum over the columns of L |
| SigmaPoints.SigmaPointsMatchMoments | kalman-filter/src/captstone_utils.h:35-68 | component by component, the weighted mean of the points is the state and the weighted outer products of deviations sum to the covariance |
| SigmaPoints.GenerateSigma | kalman-filter/src/captstone_utils.h:35-68 | the two generators together give points and weights of equal number whose weights sum to 1, whose mean is the state and whose covariance is the given one, in every component |

## Left out

- Interpreter.Machine.Run: integers are unbounded, so the 32-bit overflow panic of arithmetic is not modelled.
- Interpreter.DefiniteAssignmentIsExact: the converse is about paths with both branches open; whether a condition can really take both values is not analysed.
- Simulations.Simulation.Config: missing file names, unreadable files and compile errors end the configuration before it changes anything and are not modelled; the drawn places are inputs and lie on the grid.
- Creatures.Creature.Act: the action comes from outside instead of from running the creature's program, and predator and prey variants of a method are one method with a kind.
- BinarySearchTree.Tree.Insert: values are integers compared by `<`, in place of a type and comparison of choice.
- Gates.ResultIsDetermined: the result is an unbounded integer, where the demo's unsigned integer would wrap around.
- EchoBuffer.Port.Poll: bytes arrive before the first copy and between the two copies, not between the bytes of one copy.
- OrderSessions.SessionIsProper: sizes are numbers of shares and not negative; what the code does with a negative size is covered by the other results about trades alone.
- OrderBook.Match: the order book holds values, as the set in the source does, in a sorted sequence; counts come from the caller of `ExecuteTrade` instead of a global counter.
- SigmaPoints.GenerateSigmaPoints: the Cholesky factor and the square root of 3 are inputs; rounding and the decomposition are not modelled.
- Removing from the search tree, copying it and finding its first node by descent: removal leaves the parent's link in place, and parts of this code name members that do not exist.
- `executeTrade2`, which erases from a set while a lazy view walks over it, and the exposure sums.
- Jobs that panic, receivers that disconnect early, and a pool of size zero, which the constructor refuses.
- Restarting the DMA, error callbacks, register and clock setup.
- The C port of the simulation beyond its list of sanity checks, drawing, file dialogs and printing.
- The remaining demos: sockets, RPC, web pages and small textbook algorithms.
