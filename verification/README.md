# Verified models of NuttX's shell and audio layer

A Dafny model of the parts of NuttX and its NSH shell whose behaviour is spread over several functions and
over time: the script machine of the shell, its tokenizer, its variables and aliases, `dd`, the WAV and PCM
decoder, the shared audio ring, composite audio devices, and the run-length encoder of the bitmap tool.
`dafny verify dfyconfig.toml` checks all of it.

Where the source changes things step by step, a class or a method with loops does the same steps, and its
contract ties the new state to a specification function. The theorems are about those functions.

| file | what it models |
|---|---|
| `NshMachine`, `NshCommands`, `NshSession` | the while/until/do/done and if/then/else/fi parser with its two index stacks, as functions and as a class that updates arrays in place |
| `NshTree`, `NshLayout` | scripts as trees with their structured meaning and the meaning the machine gives them, and as text |
| `NshStacks`, `NshRefine`, `NshScripts` | the same machine on plain stacks, and the simulation of whole scripts |
| `NshNesting`, `NshStray`, `NshExact`, `NshHealed` | exactly when the two meanings agree, and what becomes of the machine when they do not |
| `NshText`, `NshWords`, `NshLine` | escapes, quotes, words and `;` lists; words without quotes and in parts; the in-place tokenizer |
| `NshVars`, `NshVarStore` | variables in one byte buffer |
| `NshAlias`, `NshAliasSteps`, `NshAliasTable` | the alias pool, with deletion deferred while an expansion is live |
| `NshDd` | `dd` under short reads and writes |
| `PcmSubsample`, `PcmStream`, `WavHeader` | the in-place subsampler over any buffers, and the WAV header |
| `AudioRing`, `AudioUpper` | the ring shared by the clients of an audio device |
| `AudioComp` | start with rollback and best-effort stop over several devices |
| `RunLength` | the run-length encoder of the bitmap converter |
| `Basics` | options, bytes and arithmetic used by several modules |

## What is proved

- **Scripts.** Running a clean script (below) line by line on the array machine, with a jump back in the file
  at each `done`, gives the same commands in the same order with the same `$?` as the recursive meaning of
  its tree, for all results of commands and any number of rounds, and both stacks end as they began
  (`MachineIsStructured`, both directions). A run that never ends goes through the same commands as the
  recursive meaning does (`MachineGoesOn`). For any lines whatsoever, well formed or not, the indices stay
  inside the arrays, entry 0 stays neutral and no "shouldn't happen" branch is reached (`NeverInternal`).
- **Subsampling.** Cutting a stream into buffers in any way does not change the concatenated output, under
  any changes of rate (`PlaysFrames`).
- **Audio ring.** In every run in which clients enqueue only with room, the driver's queue is exactly the
  slots between tail and head, and no buffer is in flight twice (`RingSafe`); the tail counts the buffers
  that have come back (`OpenedCounts`).
- **Variables** behave as a map; **aliases** partition their pool in every run, and a deferred deletion is
  completed when the last expansion ends. Every command line leaves the pool as it was (`LineLeavesNone`), and
  between command lines aliases are a map (`SaveIsUpdate`, `UnaliasIsRemoval`).
- **Tokenizer.** Quoted words come back as they were, and so do words without quotes, however they are spaced
  (`UnquotedWords`, `PlainWords`); joined commands are split again and run up to the first failure.
- **Lines.** A command on the line of its `then`, `else` or `do` does what it does on the next line
  (`SameLine`), and exactly which lines are errors is known in every state (`ErrsExact`).
- **WAV** headers come back as written, and exactly which bytes are accepted is known (`ParseExact`);
  **run-length** entries expand to the row and no shorter list does; **dd** copies exactly the bytes asked for.

Some properties one would expect do not hold of the code. Here is when they do:

- Two things part the machine from the structured meaning. A loop that stands directly in the body of
  another is still entered when the outer body is off, because `nsh_loop_enabled` looks only at the innermost
  entry. And `break` inside an `if` takes that `if` off the stack, so that the machine has lost its place in
  the text. A script where neither can be reached is called clean, behind a `break` directly in a loop body
  nothing being reached.
  - The machine keeps its place and ends as the structured run, for all results of commands, if and only if
    the script is clean (`NestingExact`). For every script that is not, the proof constructs the results.
  - A machine that loses its place in a loop that stands in no other cannot come to the end of the script
    without an error that `$?` shows (`LostShows`). So the array machine finishes as the structured run, in
    every session and for all results, if and only if the script is clean, for every script without a
    `break` inside an `if` of a loop inside a loop (`BehavesExact`).
  - With loops inside loops the machine can be put back in its place by chance: a script that is not clean and
    behaves all the same is in `HealingBehaves`. For all scripts: each of the loops, run as a script of its
    own, behaves if and only if the script is clean (`LoopsExact`).
- The subsampler keeps every n-th frame if and only if align * (rate - 1) is at most 255, since the count of
  bytes to skip is a `uint8_t` (`EveryNthExact`).
- Words in single quotes come back if and only if none but the last ends in a backslash and the last ends in
  an even number of them (`SingleQuotes`); words escaped in double quotes, if and only if none but the last
  ends in a backslash (`DoubleQuotes`). After a removed quote the scan looks back at the last quoted
  character, and after an empty first word at the character in front of the line.
- A quoted word is kept from alias expansion only when it is the last on the line (`AliasGuard`).
- Among variables of different names, one that is set comes back if and only if its name has no `=`
  (`ComesBackExact`; for any store, `SetGetExact`). A name with `=` can hide a variable without (`Hidden`).
  The comparison of a name with a stored string stays inside both if and only if they differ (`StopsExact`).
- An alias that is set is there after an expansion ends if and only if it had not been removed while that
  expansion held it (`SetStaysExact`).
- The search for the data chunk of a WAV header runs for ever if and only if it comes to one chunk header
  twice, and reads outside the buffer if and only if it comes to a position outside, both within as many
  moves as the buffer has bytes (`RunsForeverExact`, `LeavesExact`, `EndsExact`). Chunk lengths that do so:
  2^32 - 8 (`StandsStill`), 0 and then 2^32 - 16 (`ToAndFro`), 2^32 - 52 and the seven after it
  (`ReadsBefore`).
- A data chunk without payload is found only if it is the first (`RoundTrip`). When all chunks before the data
  chunk are even but the last of them, which is odd, its pad byte is not skipped, and with a short payload
  the header is invalid (`OddChunkRejected`).
- A composite start that fails leaves every device as before if and only if each earlier one that was off and
  took part is undone with success, and the undoing of each earlier one that was on is not
  (`AllOrNothing`).
- A client's enqueue hands a buffer over that the driver already holds if and only if the client has no room,
  is active, and neither another client nor the driver stops the device before it has come round the ring
  (`OverrunExact`).

## Model

| member | source | states |
|---|---|---|
| `NshMachine.SaveResult` | apps/nshlib/nsh_parse.c:543-600 | filing a result as `$?`, as the condition of an `if`, or as the end of a loop keeps every index in range and entry 0 of both stacks neutral |
| `NshMachine.LoopStep` | apps/nshlib/nsh_parse.c:2033-2218 | `while`, `until`, `do` and `done` on any words keep the machine's invariant, errors and recovery included, run nothing, and never end in the internal-error branch |
| `NshMachine.ItefStep` | apps/nshlib/nsh_parse.c:2226-2387 | the same for `if`, `then`, `else` and `fi` |
| `NshMachine.LoopErr` | apps/nshlib/nsh_parse.c:2209-2217 | recovery from a loop error restores the invariant |
| `NshMachine.IfErr` | apps/nshlib/nsh_parse.c:2380-2386 | recovery from an if error restores the invariant |
| `NshMachine.CmdBreak` | apps/nshlib/nsh_parse.c:3003-3029 | `break` keeps the invariant wherever it stands |
| `NshMachine.Execute` | apps/nshlib/nsh_parse.c:606-916 | running a command records it with the `$?` it saw, and filing its result keeps the invariant |
| `NshMachine.ParseCommand` | apps/nshlib/nsh_parse.c:2582-2668 | one line of any words keeps the invariant, takes no branch that should not happen, and only adds to what has run |
| `NshMachine.EnabledRuns` | apps/nshlib/nsh_parse.c:2017-2025 | while no condition is awaited, a plain command or `break` runs if and only if both top entries enable commands; otherwise nothing at all changes |
| `NshCommands.ThenTakes` | apps/nshlib/nsh_parse.c:2294-2312 | any words behind `then` on its line run as a command, with the `$?` before them, if and only if the condition held in an enabled if and the loop is on; otherwise only the state of the entry changes |
| `NshCommands.ElseTakes` | apps/nshlib/nsh_parse.c:2315-2335 | the same behind `else`, if and only if the condition did not hold |
| `NshCommands.DoTakes` | apps/nshlib/nsh_parse.c:2111-2128 | the same behind `do`, if and only if the loop is entered and the ifs around it are enabled |
| `NshCommands.SameLine` | apps/nshlib/nsh_parse.c:2614-2668 | a plain command or `break` behind `then`, `else` or `do` does exactly what it does on the next line |
| `NshCommands.ErrsExact` | apps/nshlib/nsh_parse.c:2033-2387 | for any words in any state: which lines are errors, and that such a line runs nothing and closes all loops or all ifs, with `$?` a failure unless a condition was awaited |
| `NshCommands.DoneGoesBack` | apps/nshlib/nsh_parse.c:2131-2203 | `done` leaves its loop and goes back to the recorded line if and only if the loop is to go on |
| `NshMachine.RunKeeps` | apps/nshlib/nsh_script.c:144-187 | the invariant holds after any number of lines of any script, jumps included |
| `NshMachine.NeverInternal` | apps/nshlib/nsh_parse.c:2079-2106 | in every run from a state with the invariant, no line reaches an internal error |
| `NshStacks.CmdFollows` | apps/nshlib/nsh_parse.c:2655-2668 | a plain command, enabled or not, does on the arrays what it does on stacks |
| `NshStacks.BreakFollows` | apps/nshlib/nsh_parse.c:3003-3029 | `break` on the arrays cuts the if stack and disables the loop as on stacks |
| `NshStacks.IfFollows` | apps/nshlib/nsh_parse.c:2239-2293 | an `if` line pushes on the arrays what it pushes on the stack |
| `NshStacks.ThenFollows` | apps/nshlib/nsh_parse.c:2294-2335 | `then` and `else` turn the top entry of both machines alike, errors included |
| `NshStacks.FiFollows` | apps/nshlib/nsh_parse.c:2336-2373 | `fi` pops both alike, and is the same error without an `if` |
| `NshStacks.LoopFollows` | apps/nshlib/nsh_parse.c:2049-2110 | `while` and `until` push both alike |
| `NshStacks.DoFollows` | apps/nshlib/nsh_parse.c:2111-2130 | `do` turns both alike |
| `NshStacks.DoneFollows` | apps/nshlib/nsh_parse.c:2131-2203 | `done` pops both alike and jumps to the recorded line exactly when the loop goes on |
| `NshStacks.LineRefines` | apps/nshlib/nsh_parse.c:2582-2668 | each line on the arrays is one step of the stack machine |
| `NshStacks.RunRefines` | apps/nshlib/nsh_script.c:144-187 | any number of lines on the arrays is that number of steps of the stack machine |
| `NshTree.OffStays` | apps/nshlib/nsh_parse.c:1956-2025 | in the machine's meaning nothing turns a body that is off back on |
| `NshRefine.Skips` | apps/nshlib/nsh_parse.c:1983-2025 | a disabled block is passed line by line without running anything, and leaves both stacks as they were |
| `NshRefine.SkipsIf` | apps/nshlib/nsh_parse.c:2226-2387 | the same for a disabled if with both parts |
| `NshRefine.SkipsLoop` | apps/nshlib/nsh_parse.c:2033-2218 | the same for a disabled loop |
| `NshRefine.Runs` | apps/nshlib/nsh_parse.c:2033-2387 | the lines of any block, `break` inside an if included, lead the machine to the state the flat meaning gives, or to the line where that loses its place, or on past any number of steps through the same commands |
| `NshRefine.RunsLoop` | apps/nshlib/nsh_parse.c:2033-2218 | the same for a loop over any number of rounds |
| `NshRefine.RunsIf` | apps/nshlib/nsh_parse.c:2226-2387 | the same for an if with both parts |
| `NshNesting.Agrees` | apps/nshlib/nsh_parse.c:1956-2025 | on clean blocks the machine's meaning is the structured one, for every result of every command, ended or not |
| `NshNesting.OffIsIdle` | apps/nshlib/nsh_parse.c:1956-2025 | a body that is off and has no loop directly in it runs nothing and leaves `$?` untouched |
| `NshNesting.OffGrows` | apps/nshlib/nsh_parse.c:1956-1973 | a body that is off still runs the condition of a loop in it |
| `NshNesting.PathRuns` | apps/nshlib/nsh_parse.c:1956-2025 | with the results of the shortest path the structured run ends after that number of commands, and every command succeeds |
| `NshNesting.FlatLeast` | apps/nshlib/nsh_parse.c:1956-2025 | whatever the results, the machine never ends a block with fewer commands than the shortest structured run |
| `NshNesting.WitnessEnds` | apps/nshlib/nsh_parse.c:1956-1973 | for every script that is not clean there are results with which the structured run ends after a known number of commands, all with success |
| `NshNesting.WitnessLags` | apps/nshlib/nsh_parse.c:1956-1973 | with those results the machine loses its place or runs more commands |
| `NshNesting.NestingExact` | apps/nshlib/nsh_parse.c:1956-1973 | for every script: the machine keeps its place and ends as the structured run for all results if and only if no reachable loop stands directly in the body of another and no reachable `break` inside an if of its loop |
| `NshStray.LineGoesOn` | apps/nshlib/nsh_parse.c:2582-2668 | each line keeps every stale stack entry harmless and every failure visible; a machine with fewer ifs on its stack than the text has stays so or shows an error |
| `NshStray.RunGoesOn` | apps/nshlib/nsh_script.c:144-187 | the same for any number of lines |
| `NshStray.StrayShows` | apps/nshlib/nsh_script.c:144-187 | a machine that has strayed shows a failure when it is at the end of the script |
| `NshStray.BreakStrays` | apps/nshlib/nsh_parse.c:3003-3029 | `break` inside an if makes the machine stray, in a loop that stands in no other |
| `NshScripts.MachineEnds` | apps/nshlib/nsh_script.c:144-187 | the array machine ends every script that its flat meaning ends, with that history and `$?` and with both stacks as before |
| `NshScripts.EndIsFlat` | apps/nshlib/nsh_script.c:144-187 | when the array machine is at the end of any script, it is there as the flat meaning says, or that has lost its place |
| `NshScripts.MachineIsFlat` | apps/nshlib/nsh_script.c:144-187 | while it keeps its place, the array machine ends a script with given commands and `$?` if and only if the flat meaning does |
| `NshScripts.MachineIsStructured` | apps/nshlib/nsh_script.c:144-187 | for clean scripts: the array machine ends with given commands and `$?` if and only if the recursive meaning does |
| `NshScripts.MachineGoesOn` | apps/nshlib/nsh_script.c:144-187 | for clean scripts: when the recursive meaning has not ended within n rounds per loop, the array machine is still inside the script after some number of lines, at least n, has run exactly the same commands, and before that a prefix of them |
| `NshScripts.LostShows` | apps/nshlib/nsh_parse.c:3003-3029 | for every script and all results: after a `break` inside an if, in a loop that stands in no other, the end of the script is not reached without a failure in `$?` |
| `NshExact.CleanBehaves` | apps/nshlib/nsh_script.c:144-187 | clean scripts behave: in every session, for all results, the array machine finishes as the structured run, if that ends |
| `NshExact.BehavesExact` | apps/nshlib/nsh_script.c:144-187 | every script that fits the stacks and has no `break` inside an if of a loop inside a loop behaves if and only if it is clean |
| `NshExact.LoopMisbehaves` | apps/nshlib/nsh_script.c:144-187 | a loop that is not clean, though all loops in it are, does not behave as a script of its own |
| `NshExact.LoopsExact` | apps/nshlib/nsh_script.c:144-187 | for every script that fits the stacks: each of its loops behaves as a script of its own if and only if the script is clean, and then it behaves |
| `NshHealed.HealingBehaves` | apps/nshlib/nsh_parse.c:3003-3029 | a script with `break` inside an if of a loop inside a loop that is not clean and behaves, for all results |
| `NshSession.Session.constructor` | apps/nshlib/nsh.h:591-692 | a new session satisfies the invariant |
| `NshSession.Session.SaveResult` | apps/nshlib/nsh_parse.c:543-600 | on the arrays, the new state is the specification's |
| `NshSession.Session.BeginLoop` | apps/nshlib/nsh_parse.c:2049-2110 | on the arrays, `while` and `until` give the specification's state, remaining words and error |
| `NshSession.Session.EndLoop` | apps/nshlib/nsh_parse.c:2131-2203 | the same for `done` |
| `NshSession.Session.Loop` | apps/nshlib/nsh_parse.c:2033-2218 | the same for the whole of nsh_loop |
| `NshSession.Session.BeginIf` | apps/nshlib/nsh_parse.c:2239-2293 | the same for `if` |
| `NshSession.Session.NextPart` | apps/nshlib/nsh_parse.c:2294-2335 | the same for `then` and `else` |
| `NshSession.Session.EndIf` | apps/nshlib/nsh_parse.c:2336-2373 | the same for `fi` |
| `NshSession.Session.Itef` | apps/nshlib/nsh_parse.c:2226-2387 | the same for the whole of nsh_itef |
| `NshSession.Session.CmdBreak` | apps/nshlib/nsh_parse.c:3003-3029 | the same for `break` |
| `NshSession.Session.Execute` | apps/nshlib/nsh_parse.c:606-916 | the same for a command whose result is given |
| `NshSession.Session.ParseCommand` | apps/nshlib/nsh_parse.c:2582-2668 | the same for one command line |
| `NshSession.Session.ReadOne` | apps/nshlib/nsh_script.c:144-187 | one line read from the script, with its place recorded |
| `NshSession.Session.RunLines` | apps/nshlib/nsh_script.c:144-187 | so many rounds of the script loop leave the arrays as the specified run |
| `NshText.EscapedIsOdd` | apps/nshlib/nsh_parse.c:1155-1179 | the one-bit state of the scan says exactly whether an odd number of backslashes stands before a character |
| `NshText.FindExact` | apps/nshlib/nsh_parse.c:1155-1179 | nsh_strchr gives the first occurrence that is not escaped: it never stops at an escaped one and never passes an unescaped one |
| `NshText.FindOver` | apps/nshlib/nsh_parse.c:1155-1179 | text without an unescaped occurrence only moves the result |
| `NshText.UnescapeEscape` | apps/nshlib/nsh_parse.c:1303-1349 | removing backslashes undoes escaping, for every text and whatever follows it |
| `NshText.EscapeHides` | apps/nshlib/nsh_parse.c:1155-1179 | nsh_strchr finds no special character in an escaped text |
| `NshText.FirstArg` | apps/nshlib/nsh_parse.c:1718-1949 | a word is given only when its quotes are closed, and input redirection takes from the line |
| `NshText.ScanGrows` | apps/nshlib/nsh_parse.c:1791-1902 | the word scan only adds to the word, takes at least a character from the line and keeps the single-quote flag |
| `NshText.WordBlank` | apps/nshlib/nsh_parse.c:1791-1902 | a quoted word before a blank ends there if and only if the last character before the blank is not a backslash |
| `NshText.WordOpen` | apps/nshlib/nsh_parse.c:1836-1855 | a body that ends in an odd number of backslashes takes its closing quote for text |
| `NshText.AliasGuard` | apps/nshlib/nsh_parse.c:1830-1928 | the flag that prevents alias expansion of a quoted word is set at the end of the line and clear before a blank |
| `NshText.SingleQuotes` | apps/nshlib/nsh_parse.c:1718-1949 | for every list of words without single quotes: printed in single quotes and read again they are the same words, in every environment, if and only if none but the last ends in a backslash and the last ends in an even number |
| `NshText.DoubleQuotes` | apps/nshlib/nsh_parse.c:1718-1949 | for every list of words: escaped, in double quotes and read again they are the same words in every environment if and only if none but the last ends in a backslash |
| `NshText.SplitJoin` | apps/nshlib/nsh_parse.c:2878-2996 | every list of commands whose quotes are closed, joined by semicolons, is split into that list |
| `NshText.SplitStops` | apps/nshlib/nsh_parse.c:2916-2988 | behind a `#` or a newline outside quotes no command begins: what follows stays with the command in front of it |
| `NshText.SplitUnclosed` | apps/nshlib/nsh_parse.c:2916-2988 | a command with a quote that is not closed is not run; those in front of it are |
| `NshText.RunsJoined` | apps/nshlib/nsh_parse.c:2878-2996 | a joined line runs a prefix of its commands in order, all when all succeed and otherwise up to the first that fails, and succeeds if and only if all do |
| `NshText.RunsUnclosed` | apps/nshlib/nsh_parse.c:2878-2996 | a line with a quote that is not closed runs the commands in front of it in order, up to the first that fails, and never succeeds |
| `NshWords.UnquotedWords` | apps/nshlib/nsh_parse.c:1718-1949 | any words that are not empty, with the characters that have a meaning escaped, and any blanks, tabs and newlines in front, between and behind, are exactly the words of the line, in every environment |
| `NshWords.PlainWords` | apps/nshlib/nsh_parse.c:1718-1949 | words without blank, tab, newline, quotes, backslash and `$`, none beginning with `#` or `<`, come back as they are typed, whatever blanks separate them |
| `NshWords.CommentEnds` | apps/nshlib/nsh_parse.c:1781-1787 | from a word that begins with `#` on nothing is a word |
| `NshWords.InputSign` | apps/nshlib/nsh_parse.c:1773-1777 | `<` is a word of its own, followed by the words behind it |
| `NshWords.DollarWord` | apps/nshlib/nsh_parse.c:1929-1936 | a word with a dollar sign outside quotes is what the environment makes of it as a whole |
| `NshWords.BackquoteWord` | apps/nshlib/nsh_parse.c:1873-1880 | blanks and separators between backquotes cut no word, and the quotes stay for the environment |
| `NshWords.WordInParts` | apps/nshlib/nsh_parse.c:1836-1886 | text, text in double quotes and text again, without blanks between, are one word |
| `NshWords.UnescapeExact` | apps/nshlib/nsh_parse.c:1303-1349 | each backslash goes and leaves the character behind it; everything else stays |
| `NshLine.LineBuffer.StrChr` | apps/nshlib/nsh_parse.c:1155-1179 | the loop over the array stops where the specification says |
| `NshLine.LineBuffer.ShiftLeft` | apps/nshlib/nsh_parse.c:1317-1327 | the rest of the text moves one place to the left with its NUL, and nothing else changes |
| `NshLine.LineBuffer.Dequote` | apps/nshlib/nsh_parse.c:1303-1349 | the shifts in place leave the recursive unescaping of the text, and nothing outside it changes |
| `NshLine.LineBuffer.RmQuotes` | apps/nshlib/nsh_parse.c:1356-1382 | both quotes go, the text behind each moves up by one and by two places, and nothing else changes |
| `NshLine.LineBuffer.PassQuotes` | apps/nshlib/nsh_parse.c:1836-1886 | at a quote the in-place scan goes on, or fails, as the specification |
| `NshLine.LineBuffer.ScanOne` | apps/nshlib/nsh_parse.c:1791-1902 | each round of the in-place scan is one step of the specification |
| `NshLine.LineBuffer.ScanWord` | apps/nshlib/nsh_parse.c:1791-1902 | the scan leaves the raw word in front of its end and the rest of the line behind it |
| `NshLine.LineBuffer.SkipSeparators` | apps/nshlib/nsh_parse.c:1739-1741 | the word starts behind the separators |
| `NshLine.LineBuffer.Argument` | apps/nshlib/nsh_parse.c:1718-1949 | the pointer returned points at the specified word with a NUL behind it, the saved pointer at what is left of the line, and nothing outside the line changes; which word it is, the rows of NshText and NshWords say |
| `NshLine.LineBuffer.FindCut` | apps/nshlib/nsh_parse.c:2916-2988 | finds where the text at hand is cut |
| `NshLine.LineBuffer.ParseOne` | apps/nshlib/nsh_parse.c:2899-2990 | one round of the loop: what is run and where the next command starts |
| `NshLine.LineBuffer.Parse` | apps/nshlib/nsh_parse.c:2878-2996 | the commands run and the result are those of the specified split, up to the first failure |
| `NshVars.LookupIsMap` | apps/nshlib/nsh_vars.c:88-108 | searching the entries is looking up the map |
| `NshVars.WithoutRemoves` | apps/nshlib/nsh_vars.c:126-165 | removing an entry removes that name from the map and nothing else |
| `NshVars.AppendAdds` | apps/nshlib/nsh_vars.c:225-288 | appending an entry of a new name adds it to the map and changes nothing else |
| `NshVars.MatchesName` | apps/nshlib/nsh_vars.c:46-62 | the comparison of a name without `=` matches exactly the variable of that name |
| `NshVars.StopsExact` | apps/nshlib/nsh_vars.c:46-62 | the comparison of a name and a string stays inside both if and only if they differ |
| `NshVars.StaysPlain` | apps/nshlib/nsh_vars.c:88-108 | the search for a name without `=` always stays inside the stored strings |
| `NshVars.OneMatch` | apps/nshlib/nsh_vars.c:88-108 | among variables of different names, once the string that matches a name is removed no other does, also for names with `=` |
| `NshVars.SetGetExact` | apps/nshlib/nsh_vars.c:194-288 | in any store and for any name: exactly when the value that was set is the value found |
| `NshVars.EncodeFrom` | apps/nshlib/nsh_vars.c:88-108 | the bytes from an entry's offset on are those of the entries from there on |
| `NshVars.DecodeEncode` | apps/nshlib/nsh_vars.c:46-165 | the bytes determine the entries |
| `NshVars.ComesBackExact` | apps/nshlib/nsh_vars.c:194-288 | in any store of variables of different names: a value that is set is found again, through the search and the first `=` of the string, if and only if the name has no `=` |
| `NshVars.Hidden` | apps/nshlib/nsh_vars.c:194-288 | a name with `=` can hide a variable without: the value set last is not the one found |
| `NshVarStore.CmpAt` | apps/nshlib/nsh_vars.c:46-62 | for any name, with `=` or not, the comparison says exactly whether the string at hand begins with the name and `=` |
| `NshVarStore.VarStore.FindVar` | apps/nshlib/nsh_vars.c:88-108 | finds the first string that matches, and its offset |
| `NshVarStore.VarStore.RemoveVar` | apps/nshlib/nsh_vars.c:126-165 | the byte shift removes exactly that entry and keeps the others byte for byte |
| `NshVarStore.VarStore.GetVar` | apps/nshlib/nsh_vars.c:194-218 | the value of the first match, for any name; map lookup for a name without `=` |
| `NshVarStore.VarStore.SetVar` | apps/nshlib/nsh_vars.c:225-288 | the new entries for any name; map update for a name without `=`; a failed allocation only removes the first match |
| `NshVarStore.VarStore.UnsetVar` | apps/nshlib/nsh_vars.c:296-351 | the first match is removed, for any name, whether or not the shrinking reallocation succeeds; map removal for a name without `=` |
| `NshVarStore.VarStore.ForeachVar` | apps/nshlib/nsh_vars.c:373-405 | visits each entry once in order, up to the first callback that returns non-zero, which it returns |
| `NshAlias.Find` | apps/nshlib/nsh_alias.c:100-114 | an entry of the list with the name, or none has it |
| `NshAlias.DeleteKeeps` | apps/nshlib/nsh_alias.c:120-150 | deleting an alias, expanded or not, keeps the pool's invariant |
| `NshAlias.DeleteLists` | apps/nshlib/nsh_alias.c:120-150 | an alias that is not expanded moves from the used to the free list, and no other moves |
| `NshAlias.CreateFails` | apps/nshlib/nsh_alias.c:156-192 | a creation whose allocation fails undoes itself |
| `NshAlias.SaveKeeps` | apps/nshlib/nsh_alias.c:156-192 | setting an alias keeps the invariant, whichever allocations fail |
| `NshAlias.UnaliasKeeps` | apps/nshlib/nsh_alias.c:418-436 | removing an alias by name keeps the invariant |
| `NshAlias.RemoveAllKeeps` | apps/nshlib/nsh_alias.c:212-225 | removing all frees every alias that is not expanded and marks every other |
| `NshAlias.ExpandKeeps` | apps/nshlib/nsh_parse.c:398-411 | an expansion holds the alias in exactly one live list |
| `NshAlias.ListHasRoom` | apps/nshlib/nsh_parse.c:398-411 | a list never exceeds its capacity |
| `NshAlias.ReleaseKeeps` | apps/nshlib/nsh_parse.c:419-441 | freeing a list completes its deferred removals, clears its marks, and changes no alias outside it |
| `NshAlias.LastRelease` | apps/nshlib/nsh_parse.c:419-441 | after the last list is freed no mark is left and every deferred removal is complete |
| `NshAlias.InitOnce` | apps/nshlib/nsh_alias.c:74-94 | initialisation never fires again |
| `NshAlias.InitFills` | apps/nshlib/nsh_alias.c:74-94 | initialisation establishes the invariant |
| `NshAlias.PoolSafe` | apps/nshlib/nsh_alias.c:74-225 | in every run the two lists partition the pool, names are distinct, and no alias held by an expansion is free |
| `NshAlias.SaveDoes` | apps/nshlib/nsh_alias.c:156-192 | setting an alias with success puts it into the pool with its value, and leaves a deferred removal of that name in force |
| `NshAlias.ReleaseStays` | apps/nshlib/nsh_parse.c:419-441 | freeing a list removes exactly the aliases it holds whose removal is deferred, and changes no other |
| `NshAlias.SetStaysExact` | apps/nshlib/nsh_alias.c:156-192 | for any pool and any live list: an alias that is set is there after the list is freed if and only if no alias of that name in the list was to be removed |
| `NshAliasSteps.ExpandExact` | apps/nshlib/nsh_alias.c:246-269 | a token that names a used alias with a value that is not being expanded marks it and adds it to the list, and changes nothing else; any other token changes nothing |
| `NshAliasSteps.LineLeavesNone` | apps/nshlib/nsh_parse.c:398-441 | a command line that begins, expands any tokens and ends leaves the pool exactly as it was |
| `NshAliasSteps.DeleteExact` | apps/nshlib/nsh_alias.c:120-150 | deleting marks an alias that is being expanded and frees any other, and leaves every other entry as it was |
| `NshAliasSteps.UnaliasExact` | apps/nshlib/nsh_alias.c:418-436 | removal by name does that to the alias of the name, and nothing for an unknown name |
| `NshAliasSteps.SaveAgain` | apps/nshlib/nsh_alias.c:156-192 | setting an alias that is there changes its value only; without memory the alias is removed |
| `NshAliasSteps.SaveNew` | apps/nshlib/nsh_alias.c:156-192 | setting a new alias takes the first free entry for it; without one or without memory nothing changes |
| `NshAliasSteps.SaveIsUpdate` | apps/nshlib/nsh_alias.c:156-192 | between command lines, setting is map update: the name has the new value, every other name what it had |
| `NshAliasSteps.UnaliasIsRemoval` | apps/nshlib/nsh_alias.c:418-436 | between command lines, removing is map removal |
| `NshAliasSteps.RemoveAllIsEmpty` | apps/nshlib/nsh_alias.c:212-225 | between command lines, removing all leaves no alias |
| `NshAliasTable.AliasTable.constructor` | apps/nshlib/nsh_alias.c:74-94 | a blank pool |
| `NshAliasTable.AliasTable.AliasInit` | apps/nshlib/nsh_alias.c:74-94 | the table is as the specification says and valid |
| `NshAliasTable.AliasTable.AliasFind` | apps/nshlib/nsh_alias.c:100-114 | the walk of the list finds what the specification finds |
| `NshAliasTable.AliasTable.Unlink` | apps/nshlib/nsh_alias.c:147-148 | the walk of the list takes exactly that entry out |
| `NshAliasTable.AliasTable.AliasDelete` | apps/nshlib/nsh_alias.c:120-150 | an alias that is expanded is only marked; any other moves from the used list to the front of the free list, blank, and no other entry moves |
| `NshAliasTable.AliasTable.AliasSave` | apps/nshlib/nsh_alias.c:156-192 | the new table and lists, and exactly when it succeeds |
| `NshAliasTable.AliasTable.RemoveAll` | apps/nshlib/nsh_alias.c:212-225 | the new table and lists |
| `NshAliasTable.AliasTable.ExpandToken` | apps/nshlib/nsh_alias.c:246-269 | expands if and only if the token names a used alias with a value that is not being expanded; then that alias is marked and added to the list, otherwise nothing changes |
| `NshAliasTable.AliasTable.ListFree` | apps/nshlib/nsh_parse.c:419-441 | the new table and lists |
| `NshDd.Transfer.ReadSector` | apps/nshlib/nsh_ddcmd.c:125-148 | whatever the reads return, a sector holds the next bytes of the input up to its size or the end, which is noticed when nothing is left |
| `NshDd.Transfer.WriteSector` | apps/nshlib/nsh_ddcmd.c:94-119 | whatever the writes return, the whole buffer is written, or on an error a prefix of it |
| `NshDd.Transfer.Copy` | apps/nshlib/nsh_ddcmd.c:406-433 | the output is the input from the start position up to the end of file or so many sectors, and the sectors counted are as few as hold it; on an error it is a prefix |
| `NshDd.NextSector` | apps/nshlib/nsh_ddcmd.c:406-433 | one sector more continues the slice copied so far |
| `NshDd.NothingLeft` | apps/nshlib/nsh_ddcmd.c:413-415 | where a sector brings nothing, no number of them brings more |
| `PcmSubsample.KeptCut` | nuttx/audio/pcm_decode.c:512-667 | cutting a stream in two at any byte changes neither what is kept nor the phase after it |
| `PcmSubsample.CopyRun` | nuttx/audio/pcm_decode.c:544-599 | the bytes up to the end of a frame are kept in one go |
| `PcmSubsample.SkipRun` | nuttx/audio/pcm_decode.c:606-661 | the bytes to skip are dropped in one go |
| `PcmSubsample.Decoder.Configure` | nuttx/audio/pcm_decode.c:438-498 | starting and ending fast forward resets the phase; a change of rate keeps it |
| `PcmSubsample.Decoder.CopyDown` | nuttx/audio/pcm_decode.c:512-667 | the overlapping copy moves the bytes down and leaves what follows |
| `PcmSubsample.Decoder.Subsample` | nuttx/audio/pcm_decode.c:512-667 | one buffer, in place, from any phase: it holds the kept bytes of what it held, and the phase is carried on |
| `PcmStream.Play` | nuttx/audio/pcm_decode.c:438-667 | a list of buffers played through one decoder in place, each configured with its own rate, passes on what the specification of the stream says |
| `PcmStream.PlayedIsKept` | nuttx/audio/pcm_decode.c:512-667 | for any buffers and rates the concatenated output depends only on the stream and the rate at each byte |
| `PcmStream.PlaysFrames` | nuttx/audio/pcm_decode.c:438-667 | under any changes of rate the output is whole input frames in order, each as many frames after the last as the rate in force when that was completed |
| `PcmStream.PlaysPicked` | nuttx/audio/pcm_decode.c:512-667 | at a constant rate, for any buffers, the output is the bytes at fixed places of a period |
| `PcmStream.EveryNthExact` | nuttx/audio/pcm_decode.c:95 | the output is the bytes p with (p / align) % rate == 0 for every way of cutting every stream if and only if align * (rate - 1) <= 255 |
| `PcmStream.WrapShows` | nuttx/audio/pcm_decode.c:95 | a stream that shows the wrap-around, for every larger product |
| `WavHeader.RunsForeverExact` | nuttx/audio/pcm_decode.c:344-376 | the search runs for ever if and only if it comes to one chunk header twice within as many moves as the buffer has bytes |
| `WavHeader.LeavesExact` | nuttx/audio/pcm_decode.c:344-376 | it reads outside the buffer if and only if it comes to a position outside within as many moves |
| `WavHeader.EndsExact` | nuttx/audio/pcm_decode.c:344-376 | it finds the data chunk or gives up if and only if neither happens, and then within as many steps as the buffer has bytes |
| `WavHeader.NoWrapScans` | nuttx/audio/pcm_decode.c:344-376 | when no chunk length wraps the position around, the search ends, reads only inside the buffer, and finds a data chunk or none |
| `WavHeader.NoWrapEnds` | nuttx/audio/pcm_decode.c:344-376 | such a search comes to no header twice and to none outside |
| `WavHeader.StandsStill` | nuttx/audio/pcm_decode.c:362-374 | a chunk of length 2^32 - 8 keeps the search where it is for ever |
| `WavHeader.ToAndFro` | nuttx/audio/pcm_decode.c:362-374 | so do an empty chunk and one of length 2^32 - 16 behind it |
| `WavHeader.ReadsBefore` | nuttx/audio/pcm_decode.c:362-374 | a chunk of length 2^32 - 52 up to 2^32 - 45 makes it read in front of the buffer |
| `WavHeader.ParseWav` | nuttx/audio/pcm_decode.c:314-425 | the loop gives the specified result on exactly the headers on which the search ends inside the buffer, and accepts only the required bytes and a chunk named data |
| `WavHeader.ParseExact` | nuttx/audio/pcm_decode.c:292-425 | byte by byte: a header is accepted with a position if and only if it is RIFF, WAVE, "fmt ", 16 bytes of PCM format, one or two channels, an alignment below 256, 8 or 16 bits, and the search comes to a chunk named data there; the format is read from those bytes |
| `WavHeader.FindsData` | nuttx/audio/pcm_decode.c:344-376 | the search finds a position if and only if it comes there and a chunk named data stands there |
| `WavHeader.ScanPasses` | nuttx/audio/pcm_decode.c:344-376 | the search passes any chain of chunks, and gives up exactly when nothing follows the next header |
| `WavHeader.RoundTrip` | nuttx/audio/pcm_decode.c:257-425 | a written header with any even chunks is read back with its format and the place behind the data chunk's header if and only if that chunk is the first or has a payload |
| `WavHeader.OddChunkRejected` | nuttx/audio/pcm_decode.c:362-374 | a header whose last chunk before the data chunk is odd, all others being even, is invalid, for short payloads |
| `AudioRing.TryEnqueueFair` | nuttx/audio/audio.c:390-440 | the device head stops at the largest active client head at the latest, passes a client only with at most two buffers in flight, and leaves in XRUN exactly the active clients that are behind it, or level with it with nothing in flight |
| `AudioRing.TryEnqueueRests` | nuttx/audio/audio.c:390-440 | where the head comes to rest, in terms of the clients: every position passed was accepted, with an active client ahead and none level unless at most two buffers were in flight, and the next is not |
| `AudioRing.Rest` | nuttx/audio/audio.c:396-437 | where the head comes to rest: the first place where the device stops or the driver refuses |
| `AudioRing.MarkKeeps` | nuttx/audio/audio.c:402-425 | marking clients changes neither which are ready nor which wait |
| `AudioRing.EnqueueKeeps` | nuttx/audio/audio.c:821-857 | a client's enqueue with room keeps the ring invariant |
| `AudioRing.ResetKeeps` | nuttx/audio/audio.c:1167-1188 | a reset keeps it and leaves the client at the larger of the device head and one period short of full |
| `AudioRing.ResetDoes` | nuttx/audio/audio.c:1167-1188 | a client in XRUN runs again and any other keeps its state; it is dry again only if another active client is ahead of the device |
| `AudioRing.DequeueKeeps` | nuttx/audio/audio.c:1434-1436 | the driver's return of its oldest buffer keeps it |
| `AudioRing.DequeueDoes` | nuttx/audio/audio.c:1434-1436 | the driver returns its oldest buffer: the tail moves on by one and all other buffers in flight stay, in order |
| `AudioRing.OpenKeeps` | nuttx/audio/audio.c:161-207 | a new client at position 0 is added and keeps the invariant; the first starts the ring at 0 |
| `AudioRing.CloseKeeps` | nuttx/audio/audio.c:217-277 | exactly that client leaves, and the invariant is kept; only the last one stops the ring |
| `AudioRing.RingSafe` | nuttx/audio/audio.c:390-440 | in every legal run tail <= head <= tail + periods, the driver's queue is exactly the slots from tail to head, and no slot is in it twice |
| `AudioRing.TailCounts` | nuttx/audio/audio.c:1434-1436 | in every run, while the device is open, the tail counts the buffers that have come back |
| `AudioRing.OpenedCounts` | nuttx/audio/audio.c:390-440 | from the first open on: the tail is the number of buffers returned, and the head that plus the number in flight |
| `AudioRing.HeadCounts` | nuttx/audio/audio.c:821-857 | while clients only fill buffers and change state, the head of each counts the buffers it has filled |
| `AudioRing.TwiceExact` | nuttx/audio/audio.c:427-436 | a slot is in the queue twice if and only if there are more positions in flight than slots |
| `AudioRing.OverrunExact` | nuttx/audio/audio.c:821-857 | in any state with the invariant, for any number of clients: an enqueue puts a slot into the queue twice if and only if the client has no room, is active, and every position up to a full ring is accepted and not held up by another client |
| `AudioUpper.UpperHalf.Scan` | nuttx/audio/audio.c:402-425 | the walk over the clients finds who is ready and who waits, and marks those that ran dry |
| `AudioUpper.UpperHalf.TryEnqueue` | nuttx/audio/audio.c:390-440 | the loop ends, in the specified state |
| `AudioUpper.UpperHalf.EnqueueBuffer` | nuttx/audio/audio.c:821-857 | the specified state after a client's buffer |
| `AudioUpper.UpperHalf.DequeueBuffer` | nuttx/audio/audio.c:1413-1462 | the specified state after the driver's callback: the tail one further, and all other buffers still in flight |
| `AudioUpper.UpperHalf.ResetStatus` | nuttx/audio/audio.c:1167-1188 | the specified state after a reset |
| `AudioComp.Start` | nuttx/audio/audio_comp.c:321-371 | every device is called in order up to the first error; then those before it are undone from the last to the first, and the error is returned |
| `AudioComp.LogsExact` | nuttx/audio/audio_comp.c:337-366 | the devices that have the operation are called, each once, from the first to the last, and undone from the last to the first |
| `AudioComp.LastCodeExact` | nuttx/audio/audio_comp.c:337-347 | without an error the result is that of the last device that took part |
| `AudioComp.LastCodeNone` | nuttx/audio/audio_comp.c:330-347 | if none took part it is the value it began with |
| `AudioComp.ActTurnsOn` | nuttx/audio/audio_comp.c:337-368 | calling the devices turns on exactly those that take part |
| `AudioComp.UndoTurnsOff` | nuttx/audio/audio_comp.c:356-366 | undoing turns off exactly the devices whose operation for it succeeds, whether or not they took part |
| `AudioComp.AllOrNothing` | nuttx/audio/audio_comp.c:335-368 | after an error every device is as before if and only if each earlier one that was off and took part is undone with success, and the undoing of each earlier one that was on is not |
| `AudioComp.ReportsErrors` | nuttx/audio/audio_comp.c:397-418 | an error is reported if and only if some device failed |
| `AudioComp.ReportExact` | nuttx/audio/audio_comp.c:397-418 | what is reported: the failure of the lowest device that failed, else the result of the lowest that took part, else the value it began with |
| `AudioComp.Stop` | nuttx/audio/audio_comp.c:383-419 | every device is called from the last to the first; the first failure is reported, else the first result |
| `AudioComp.Release` | nuttx/audio/audio_comp.c:844-884 | the same for release |
| `RunLength.Quantize` | apps/tools/bitmap_converter.py:47-57 | the first of the palette colours at the least distance |
| `RunLength.DistanceIs` | apps/tools/bitmap_converter.py:53-54 | the distance is the sum of the squared differences of the parts |
| `RunLength.EncodeRow` | apps/tools/bitmap_converter.py:60-80 | the loop gives the specified entries for the nearest colours of the row |
| `RunLength.EncodeExpands` | apps/tools/bitmap_converter.py:60-80 | the entries expand to the row, and every count is in 1..255 |
| `RunLength.EncodeShortest` | apps/tools/bitmap_converter.py:60-80 | no list of entries with counts of at most 255 that expands to the row is shorter |

## Left out

- Scripts are modelled at the level of words: one command on each line, with NSH_PFLAG_IGNORE set so that a failing command does not end the script. `nice`, background and redirection are not modelled.
- A jump goes to a line, not to a byte offset of the file, and lseek and the reading of lines succeed; `np_loffs` and `np_jump` for several commands on one line are left out.
- Alias, variable and command substitution inside script words are left out; a word is taken as what it expands to.
- NshMachine.Execute: a command is the result that an arbitrary function of everything run before gives; background, redirection and spawning are left out.
- NshMachine.ParseCommand: `nice`, redirection and the splitting of the line into words are left out.
- NshSession.Session.Execute: as NshMachine.Execute.
- NshSession.Session.ParseCommand: as NshMachine.ParseCommand.
- NshSession.Session.ReadOne: lseek and the reading of a line always succeed.
- NshRefine.Runs: what happens after a `break` inside an if is not part of it but of NshStray.
- NshScripts.LostShows: for loops that stand in no other loop; in a loop inside a loop the machine can recover (NshHealed.HealingBehaves).
- NshExact.BehavesExact: scripts with a `break` inside an if of a loop inside a loop are excluded, since there a script that is not clean may behave all the same (NshHealed.HealingBehaves); NshExact.LoopsExact covers them loop by loop.
- NshText.FirstArg: only that a word is a token and that input redirection takes from the line; what the word is, SingleQuotes, DoubleQuotes and NshWords say. A word that begins with `>` is read as any other, as the source does.
- NshText.Args: nsh_argexpand is modelled for a word without an unescaped `$` or backquote, which only loses its backslashes; any other word becomes what an arbitrary environment function says. The splitting of an expanded variable into several words is left out.
- NshLine.LineBuffer.Argument: the expansion of the word is not part of it, and the line must have a character in front of it, because an empty quoted first word makes the source read that character.
- NshLine.LineBuffer.Parse: a command is a text and a status; that the command itself cuts up its own text is left out.
- NshVarStore.CmpAt: a name that equals the whole string at hand is excluded, since the source then compares past both terminators (NshVars.StopsExact).
- NshVarStore.VarStore.FindVar: names that equal a stored string as a whole are excluded, for that reason.
- NshVarStore.VarStore.GetVar: as FindVar.
- NshVarStore.VarStore.SetVar: as FindVar; memory allocation is a flag.
- NshVarStore.VarStore.UnsetVar: as FindVar; memory allocation is a flag.
- NshAlias: the expansion lists of all command lines are one field, and any live list may be freed next; printing is left out.
- NshDd.Transfer.Copy: a write that is not an error moves at least one byte, products of sector counts and sizes do not wrap, the hole that seek leaves in the output file is not part of it, and verify is left out.
- PcmSubsample.Decoder.constructor: a frame of 0 or of more than 255 bytes is excluded; with 0 the source would not end.
- WavHeader.ParseWav: headers on which the search of the source does not end, or reads outside the buffer, are excluded (WavHeader.EndsExact).
- WavHeader.OddChunkRejected: for payloads so short that the length the search misreads does not wrap, and an odd chunk that is the last before the data chunk.
- AudioRing: positions are unbounded, the number of periods is fixed, the state of a client may change at any time, and closing the last client drops the driver's buffers. The direct-buffer path, mmap, message queues and the contents of buffers are left out.
- AudioUpper.UpperHalf.DequeueBuffer: poll notification, messages and the clearing of the buffer are left out.
- AudioComp: getcaps, configure, buffers and ioctl are left out; the source ignores what an undo call returns, and the model counts a device as undone only when it succeeds.
- Console, login, network, mount, date and codec commands, task spawning and device registration would only add calls into the operating system.
