# A verified model of the NuttX application libraries

The NuttX applications package carries a shell (NSH), an FM synthesizer, a Modbus stack and
small host tools. This project models the parts of them that are state machines or
algorithms, in Dafny 4.11, and proves what they keep, what they compute, and exactly when
they do what their documentation says. `dafny verify dfyconfig.toml` checks all of it.

## What is modelled

**NSH control flow.** NSH has no syntax tree. Each command is fed to two small stacks, one
for `if`/`then`/`else`/`fi` and one for `while`/`until`/`do`/`done`; loops work by seeking
the script file back to the offset of their first line. `NshControl` is that machine on
tokens, `NshScript` the loop that reads a script, and `NshParser` the same as a class whose
methods update the stacks in place, line by line. `NshInvariant` holds for every stream of
tokens, well formed or not. `NshSemantics` gives structured scripts two meanings: the
documented one, and what the machine does. `NshTokens` and `NshRefinement` prove that the
machine does the latter, command for command and for every finite list of command results,
under `set -e` and `set +e`; and that the two meanings agree on all runs of a script if and
only if no loop stands directly in the body of a loop and, under `set +e`, nothing to be
executed stands behind a plain command on its line. `NshLayout` is about lines with several
commands, and `NshBreak` about `break`. `NshTextScript` reads a script from its text, and
`NshBytes` is the driver on the bytes of the text: it seeks to byte offsets, and does on every
text what the machine does on its commands, as long as no loop is opened by a command with
quotation marks in it. `NshOrdinary` has the documented forms letter by letter, and
`NshRefusals` says which commands are refused and what the parser is left in.

**NSH text.** `NshText` defines escapes, one-pass `$`/back-quote substitution, the splitting
of a command into arguments and of a line into commands; `NshLine` has the scanners that work
in the line buffer and proves them equal to those definitions; `NshTemplate` says what every
text expands to, and what is left of it when escapes are undone; `NshArguments` spells out
words, quoted text, redirections, comments and substitutions, and where an argument ends; `NshQuoting` shows that every
list of strings, whatever they contain, can be written on a line that is one command and is
read back unchanged.

**NSH variables.** `NshVars` is the packed buffer of `name=value` strings, with the in-place
removal, as a map; `NshEnv` adds the environment and the `set`, `unset` and `export` commands.

**dd.** `Dd` is the transfer loop with reads and writes that may be short or fail.

**FM synthesizer.** `FmEnvelope` is the envelope generator, `FmSineTable` and `FmWave` the
wave forms in integer arithmetic, `FmOperator` the operator tree on the heap, with feedback,
and `FmSound` mixing and rendering.

**Modbus.** `ModbusTable` is the table of function handlers, `ModbusSlave` the slave stack with
its one-event queue, `ModbusMaster` the master stack with its event flags, its bus semaphore
and the requests that wait for a result.

**Bitmap converter.** `Rle` is the run-length encoder.

`Basics`, `Iteration` and `CInt` hold shared definitions: an option type, repeated steps, and
division as C defines it.

## What turned out to be false

- A loop directly inside a loop: when the outer test ends the outer loop, its body is passed
  over, but the inner loop's test is executed all the same (`NshSemantics.DocumentedIff`,
  `NshRefinement.ScriptRunsAsDocumented`).
- `break` inside an if that was opened in the loop: the `fi` or `else` of that if is refused, or
  acts on the if around the loop (`NshBreak.BreakInIf`, `NshBreak.ExitIsRefused`). A loop behind
  `break` in the same body is still executed (`NshBreak.SilentIffNoLoop`).
- Under `set +e` a command that fails ends its line: what stands behind it on the line is
  skipped (`NshSemantics.DocumentedIff`, `NshRefinement.ScriptRunsAsDocumented`), even `done` or
  `fi` (`NshLayout.FailureEndsLine`, `NshLayout.OneLoopDocumented`).
- A loop with a quotation mark in its test goes back to a place behind the mark and not to the
  start of the command, so that the line is not read as before (`NshLine.NotedIsRight`,
  `NshBytes.LoopGoesBack`); `while t "a"` goes back to an empty command (`NshLine.QuotedTest`).
- A variable with an `=` in its name is not got as it was set. It also leaves a second string for
  the name before the `=`, so that a variable without `=` in its name is not got as it was set
  either (`NshVars.GotAsSet`, `NshVars.StaleValue`). Looking up a name with `=` can run past the
  end of the strings (`NshVars.UnsafeLookup`).
- `export name` keeps the value only of an NSH variable: done twice, it empties the variable
  (`NshEnv.ExportKeepsValue`).
- `dd` takes the offset of a `skip` modulo 2^32, and copies from what is left of it or, if that
  cannot be reached, from the start (`Dd.SkipHonoured`, `Dd.WrappedSkip`).
- Rendering writes the last frame beyond the end of the sample buffer unless the number of
  channels divides the number of samples (`FmSound.BufferHoldsFrames`).
- The sawtooth wave leaves the 16-bit range by one on the last two steps of its period
  (`FmWave.SawtoothInRange`).
- A handler removed from the Modbus table hides the handlers behind it
  (`ModbusTable.HiddenByHole`, `ModbusTable.RemovalKeepsPacked`, `ModbusTable.RemovalHides`).
- A Modbus frame that no request waits for leaves the master's bus free twice
  (`ModbusMaster.StrayArrival`, `ModbusMaster.BusFreeOnce`).

## Model

| member | source | states |
|---|---|---|
| NshInvariant.ReachableInv | nshlib/nsh_parse.c:1828-2180 | in every state that any token stream leads to, with errors and `break`, slot 0 of both stacks is the resting one and never disabled, all loops below the innermost are in their bodies, the innermost was opened by `while`, `until` or `do`, and all open ifs come from an `if` |
| NshInvariant.InternalErrorsUnreachable | nshlib/nsh_parse.c:1875-1987 | both indices stay below the nesting limit, and the two tests marked as impossible in `done` and `fi` never fire |
| NshInvariant.ParseCommandKeepsInv | nshlib/nsh_parse.c:2370-2588 | one command, whatever its words, keeps that invariant |
| NshInvariant.BreakKeepsInv | nshlib/nsh_parse.c:2721-2747 | so does `break`, which restores the if index of the loop it leaves |
| NshInvariant.SaveResultKeepsInv | nshlib/nsh_parse.c:424-481 | so does recording a result |
| NshInvariant.FeedLoopKeepsInv | nshlib/nsh_parse.c:1828-2012 | so does every loop keyword |
| NshInvariant.FeedItefKeepsInv | nshlib/nsh_parse.c:2020-2180 | so does every if keyword |
| NshInvariant.TopFrameSpeaksForAll | nshlib/nsh_parse.c:1778-1802 | the test of the top if frame alone says whether the selected branches of all open ifs are active |
| NshInvariant.ReachableFlat | nshlib/nsh_parse.c:1778-1802 | that holds in every state of every run without loops, well formed or not |
| NshSemantics.AgreeWithoutNesting | nshlib/README.md:123-161 | without a loop directly in a loop and, under `set +e`, with nothing to be executed behind a plain command on its line, what the machine does is the documented meaning, for every script and every list of results |
| NshSemantics.DocumentedIff | nshlib/README.md:123-161 | the two agree on all lists of results if and only if both conditions hold |
| NshSemantics.FewestIsNeeded | nshlib/nsh_parse.c:1828-2180 | the machine completes no script on fewer results than the shortest way through it takes, unless a command fails |
| NshSemantics.MeaningNeeds | nshlib/README.md:123-161 | nor does a documented run, whatever fails |
| NshSemantics.LosingCompletes | nshlib/nsh_parse.c:2670-2683 | for every script without a loop directly in a loop and with something to be executed behind a plain command on its line there is a list of results that the machine completes it on under `set +e` |
| NshSemantics.LosingFallsShort | nshlib/README.md:123-161 | on that list a documented run asks for more |
| NshSemantics.ExposingFallsShort | nshlib/nsh_parse.c:1751-1768 | for every script with a loop directly in a loop there is a list of results that completes it as documented, and on which the machine asks for more or a command fails |
| NshTokens.PlainCommand | nshlib/nsh_parse.c:2370-2588 | a plain command is executed when it is enabled, with its result saved, and passed over otherwise |
| NshTokens.IfCommand | nshlib/nsh_parse.c:2030-2083 | `if` with its test pushes a frame that is disabled exactly when commands are, and selects the branch by the result and the inversion |
| NshTokens.ThenCommand | nshlib/nsh_parse.c:2085-2104 | `then` moves the top frame on and executes nothing |
| NshTokens.ElseCommand | nshlib/nsh_parse.c:2106-2125 | so does `else` |
| NshTokens.FiCommand | nshlib/nsh_parse.c:2127-2158 | `fi` takes the top frame away |
| NshTokens.WhileCommand | nshlib/nsh_parse.c:1846-1901 | `while` and `until` push a frame with the offset of the command, execute the test whenever the ifs allow it, whatever the loops around say, and decide by its result whether the body runs |
| NshTokens.DoCommand | nshlib/nsh_parse.c:1903-1921 | `do` moves the loop on and executes nothing |
| NshTokens.DoneCommand | nshlib/nsh_parse.c:1925-1987 | `done` takes the loop away, and seeks back to its line exactly if the body ran |
| NshTokens.JoinedCommand | nshlib/nsh_parse.c:2370-2588 | a command behind `then`, `else` or `do` runs as on a line of its own |
| NshRefinement.ScriptRunsAsActual | nshlib/nsh_script.c:135-178 | every well-formed script within the nesting limit executes exactly the commands of `Actual`, for every finite list of results: under `set -e` in any layout of lines and semicolons, and under `set +e` in any layout in which the lines of plain commands end in the same block, where a command that fails skips the statements behind it on its line |
| NshRefinement.YieldsOnce | nshlib/nsh_script.c:135-178 | what a run yields is unique |
| NshRefinement.ScriptRunsAsDocumented | nshlib/README.md:123-161 | in those layouts, the one-line loop of the documentation included, a script runs as documented on all lists of results if and only if no loop stands directly in a loop and, under `set +e`, nothing to be executed stands behind a plain command on its line |
| NshRefinement.PrintedScriptRuns | nshlib/README.md:123-161 | every such script, written one command to a line, runs as documented |
| NshLayout.FailureEndsLine | nshlib/nsh_parse.c:2604-2714 | under `set +e` the script goes on behind a failed command if and only if the command ends its line; otherwise the rest of the line is skipped |
| NshLayout.LoopStaysOpen | nshlib/nsh_parse.c:2604-2714 | `while t` and `do c; done` with `c` failing under `set +e`: the script ends with the loop open |
| NshLayout.OneLoopDocumented | nshlib/README.md:146-155 | such a loop runs as documented on all lists of results if and only if `done` is on a line of its own or the option is `set -e` |
| NshTextScript.WordOfIs | nshlib/nsh_parse.c:1843-2129 | a word is read as a keyword if and only if it is one of the ten, and each of these as itself |
| NshTextScript.TextReadsBack | nshlib/nsh_script.c:135-178 | every script file, in any layout and with tests of loops spelled without quotation marks, is read back from the text it is written as, in which ordinary words stand as they are; the text closes its quotation marks, and its loops can go back |
| NshTextScript.RunText | nshlib/nsh_script.c:86-193 | on any text that holds a script, closes its quotation marks and has none in the tests of loops: a session that reads it and comes to its end has executed exactly the commands of the documented meaning |
| NshBytes.ParseAlike | nshlib/nsh_parse.c:1828-2180 | two parser states that differ only in how offsets are counted stay so, whatever the command, as long as a new loop saves the offset of its own command |
| NshBytes.RunFollows | nshlib/nsh_script.c:133-186 | every step of the driver that reads lines at byte offsets and seeks to byte offsets matches a step of the machine on the commands of the text |
| NshBytes.BytesYieldSame | nshlib/nsh_script.c:86-193 | for every text that closes its quotation marks and has none in the commands that open loops, a run on its bytes yields an outcome if and only if the run on its commands does |
| NshBytes.TextRunsAsDocumented | nshlib/README.md:123-161 | such a text, if it holds a script, runs as documented from its bytes on all lists of results if and only if no loop stands directly in a loop and, under `set +e`, nothing to be executed stands behind a plain command on its line |
| NshBytes.LoopGoesBack | nshlib/nsh_parse.c:1884-1900 | the byte offset saved for a loop is that of its command, and the line read there has the loop and the commands behind it, if and only if the command has no quotation mark before its end or a comment |
| NshOrdinary.LoopRuns | nshlib/README.md:145-155 | `while t; do c; done` and `until t; do c; done` on one line, for any ordinary words `t` and `c` that are no keywords, are read as these three commands and run as documented under `set -e` |
| NshOrdinary.LoopMeans | nshlib/README.md:145-155 | that is: the test; if it comes out as wanted the command and the test again; and a command that fails ends the script |
| NshOrdinary.IfRuns | nshlib/README.md:123-136 | `if t; then a; else b; fi`, with or without `!`, is read as these four commands and runs as documented under `set -e` |
| NshOrdinary.IfMeans | nshlib/README.md:123-136 | that is: the test, and `a` if it succeeds and `b` otherwise, or with `!` the other way round |
| NshOrdinary.CommentLine | nshlib/nsh_parse.c:2642-2658 | a line that starts with `#` is an empty command, whatever else is in it |
| NshRefusals.LoopRefusedIff | nshlib/nsh_parse.c:1828-2014 | when a loop keyword, or a command between a test and its `do`, is refused: an iff over all states and words |
| NshRefusals.LoopRefused | nshlib/nsh_parse.c:2002-2014 | a refusal closes all loops, executes nothing, uses no result, and fails |
| NshRefusals.ItefRefusedIff | nshlib/nsh_parse.c:2020-2180 | when an if keyword, or a command between a condition and its `then`, is refused |
| NshRefusals.ItefRefused | nshlib/nsh_parse.c:2169-2180 | such a refusal closes all ifs, executes nothing, uses no result, and fails |
| NshBreak.BreakCommand | nshlib/nsh_parse.c:2721-2747 | `break` in a running body closes the ifs opened in the loop and lets no command through until `done` |
| NshBreak.BreakLeavesLoop | nshlib/README.md:157-161 | directly in the body of a loop: the rest of the body is passed over, in which only loops are executed, the loop is closed, and the script goes on behind `done`; without a loop in the rest, `break` is the last command of the loop |
| NshBreak.SilentIffNoLoop | nshlib/nsh_parse.c:1751-1768 | what is passed over executes nothing, on all lists of results, if and only if no loop stands directly in it |
| NshBreak.BreakInIf | nshlib/nsh_parse.c:2726-2740 | inside an if of the loop, and after the rest of its branch: `fi` and `else` are refused, unless the loop itself is in a branch of an if, and then act on that one |
| NshBreak.ExitIsRefused | nshlib/nsh_parse.c:2721-2747 | every script `while t`, `do`, `if u`, `then`, `break`, `fi`, `done` comes to an error at its `fi`, which ends it under `set -e` and is its `$?` under `set +e` |
| NshParser.Parser.constructor | nshlib/nsh.h:616-716 | the stacks start at rest |
| NshParser.Parser.LoopEnabled | nshlib/nsh_parse.c:1751-1768 | whether the innermost loop lets commands through |
| NshParser.Parser.ItefEnabled | nshlib/nsh_parse.c:1778-1802 | whether the top if frame does |
| NshParser.Parser.CmdEnabled | nshlib/nsh_parse.c:1812-1820 | whether both do |
| NshParser.Parser.FeedLoop | nshlib/nsh_parse.c:1828-2012 | the loop keywords, in place, do what the machine does, errors included |
| NshParser.Parser.FeedItef | nshlib/nsh_parse.c:2020-2180 | so do the if keywords |
| NshParser.Parser.SaveResult | nshlib/nsh_parse.c:424-481 | the result goes to `$?`, to the loop or to the if that waits for it |
| NshParser.Parser.Break | nshlib/nsh_parse.c:2721-2747 | the innermost loop is left and its ifs with it |
| NshParser.Parser.ParseCommand | nshlib/nsh_parse.c:2370-2588 | one command takes the machine's step on the stacks |
| NshParser.Parser.ParseLine | nshlib/nsh_parse.c:2604-2714 | the commands of a line take the machine's steps, one after another, until one fails or a loop jumps |
| NshParser.Parser.ScriptLine | nshlib/nsh_script.c:135-178 | one turn of the script loop takes some steps of the machine and ends at the beginning of a line |
| NshParser.Parser.Script | nshlib/nsh_script.c:86-193 | for every number of turns, the turns are a run of the machine, and the stream of the caller is restored |
| NshScript.SeekJumps | nshlib/nsh_parse.c:1955-1975 | the file position changes only together with the jump flag |
| NshVars.DecodeEncode | nshlib/nsh_vars.c:87-107 | the buffer reads back as the bindings it was made of |
| NshVars.ComparedIs | nshlib/nsh_vars.c:45-61 | for all names and strings: the comparison finds the string if and only if it starts with the name and an `=`, and runs past the end of both if and only if they are equal |
| NshVars.SetThenGet | nshlib/nsh_vars.c:193-287 | for any strings in the store: what is got after setting a variable is the value of the first string still found for its name, if setting has left one, and otherwise the value set, with a part of the name in front if there is an `=` in the name; the search is as safe as it is over what setting has left |
| NshVars.GotAsSet | nshlib/nsh_vars.c:193-287 | a variable is got as it was set, for all values, if and only if there is no `=` in its name and setting leaves no string that is found for it |
| NshVars.NoSecondString | nshlib/nsh_vars.c:86-108 | setting leaves no such string as long as the names in the store are distinct |
| NshVars.StaleValue | nshlib/nsh_vars.c:224-287 | after `set a x`, `set a=b c`, `set a v` the value of `a` is `b=c`, and with `set a b=d` in between it is `b=d` |
| NshVars.UnsafeLookup | nshlib/nsh_vars.c:45-61 | with `a` set to `b`, looking up `a=b` runs past the end of the strings |
| NshVars.StoreIsMap | nshlib/nsh_vars.c:224-350 | after any settings and removals the names are distinct, the buffer reads back, and the bindings are those of a map |
| NshVars.Store.constructor | nshlib/nsh_vars.c:87-107 | a store starts empty, without a buffer |
| NshVars.Store.CmpName | nshlib/nsh_vars.c:45-61 | the loop over the buffer computes the comparison, for every name for which it ends |
| NshVars.Store.FindVar | nshlib/nsh_vars.c:87-107 | finds the first string that starts with the name and an `=`, or there is none |
| NshVars.Store.RemoveVar | nshlib/nsh_vars.c:125-164 | closes the gap in place: the buffer is the encoding without the string |
| NshVars.Store.GetVar | nshlib/nsh_vars.c:193-217 | the text behind the first `=` of the string that is found, or nothing |
| NshVars.Store.SetVar | nshlib/nsh_vars.c:224-287 | the string that is found is removed, and `name=value` is put at the end |
| NshVars.Store.UnsetVar | nshlib/nsh_vars.c:295-350 | the string that is found is removed, and an unknown name is no error |
| NshVars.SetIsMap | nshlib/nsh_vars.c:224-287 | for a name without `=`, setting updates the map at the name and nowhere else |
| NshVars.UnsetIsMap | nshlib/nsh_vars.c:295-350 | for a name without `=`, removing takes the name out of the map |
| NshVars.LookupIsMap | nshlib/nsh_vars.c:193-217 | for a name without `=`, what is found is what the map has |
| NshVars.Store.ForeachVar | nshlib/nsh_vars.c:372-404 | the callback sees each binding once, in order, up to the first that it rejects |
| NshEnv.ScopesStayApart | nshlib/nsh_envcmds.c:473-632 | after any commands no name is bound both in the shell and in the environment, and `$name` is what it was last made |
| NshEnv.RawRunIsRun | nshlib/nsh_envcmds.c:393-632 | from a new session, any commands on names without `=` do to the strings of the session what they do to the two maps, and `$name` is the same in both |
| NshEnv.ExportKeepsValue | nshlib/nsh_envcmds.c:579-632 | a bare export keeps the visible value if and only if the name is an NSH variable or its value is empty, and keeps all other names |
| NshEnv.ExportedStays | nshlib/nsh_envcmds.c:426-632 | a name is in the environment after any commands if and only if it was last exported and not unset, whatever it was set to |
| NshEnv.TrimTakesMargins | nshlib/nsh_fsutils.c:463-484 | trimming takes away all white space at both ends and nothing else |
| NshEnv.TrimSpaces | nshlib/nsh_fsutils.c:463-484 | the two scans compute that |
| NshEnv.Session.EnvExpand | nshlib/nsh_parse.c:1041-1087 | `$?`, the NSH variable, the environment, or the empty string |
| NshEnv.Session.ParseOptions | nshlib/nsh_envcmds.c:426-470 | the options before an invalid one take effect |
| NshEnv.OptionsTakeEffect | nshlib/nsh_envcmds.c:426-470 | `+` sets and `-` clears: `e` the option to pass over errors, `x` the option to be silent, for all letters before an invalid one, and nothing else changes |
| NshEnv.Session.CmdSet | nshlib/nsh_envcmds.c:393-530 | options and assignment in all four shapes, errors included; a name in the environment is set there |
| NshEnv.Session.CmdUnset | nshlib/nsh_envcmds.c:538-571 | removes the name from both places |
| NshEnv.Session.CmdExport | nshlib/nsh_envcmds.c:579-632 | moves the name to the environment, or leaves all as it was if that fails |
| NshTemplate.ExpandRendered | nshlib/nsh_parse.c:1149-1398 | a text made of literal pieces, `${name}`s and back-quoted commands, escapes included, and a tail expands to the values of the pieces, put together, and values are not expanded again; a bare `$name` reaches to the end, and an unclosed mark empties the argument |
| NshTemplate.ArgumentIs | nshlib/nsh_parse.c:1149-1398 | the argument made of it loses its escapes piece by piece, those in values too, as long as no value ends in the middle of an escape; a value comes through as it is if and only if there is no back-slash in it |
| NshTemplate.EveryTextIsRendered | nshlib/nsh_parse.c:1149-1398 | every text is made of such pieces, so this is what every text expands to |
| NshText.ChopJoins | nshlib/nsh_parse.c:2604-2714 | the commands of a line, joined with semicolons again, are the line |
| NshText.ObeyStops | nshlib/nsh_parse.c:2604-2714 | they are passed on in order up to the first that fails, and the line succeeds if and only if all do and no quotation mark is open |
| NshQuoting.DequoteEscape | nshlib/nsh_parse.c:1095-1141 | removing escapes undoes escaping every character |
| NshQuoting.ExpandEscape | nshlib/nsh_parse.c:1149-1398 | in a text with every character escaped nothing is expanded |
| NshQuoting.BareArg | nshlib/nsh_parse.c:1478-1744 | a non-empty string with every character escaped is one argument, equal to the string |
| NshQuoting.QuotedArg | nshlib/nsh_parse.c:1478-1744 | so is any string, escaped and between quotation marks |
| NshQuoting.ArgsWrite | nshlib/nsh_parse.c:1478-1744 | every list of strings is read back from the line it is written on |
| NshQuoting.WriteIsOneCommand | nshlib/nsh_parse.c:2604-2714 | that line is a single command |
| NshLine.Strchr | nshlib/nsh_parse.c:1009-1033 | finds the first occurrence that is not escaped |
| NshLine.DequoteInPlace | nshlib/nsh_parse.c:1095-1141 | shifting the buffer down computes the string without its escapes, ends it, and touches nothing outside |
| NshLine.Substitute | nshlib/nsh_parse.c:1242-1383 | one special character: the text before it with the value put in, and where the text goes on |
| NshLine.ArgExpand | nshlib/nsh_parse.c:1149-1398 | the loop over special characters computes the expansion |
| NshLine.FindArgEnd | nshlib/nsh_parse.c:1587-1633 | the character loop stops at the first terminator that is neither escaped nor inside back-quotes |
| NshLine.Argument | nshlib/nsh_parse.c:1478-1744 | the next argument, ended in the buffer, and the rest |
| NshLine.Arguments | nshlib/nsh_parse.c:2464-2522 | all arguments of a command |
| NshLine.ParseLine | nshlib/nsh_parse.c:2604-2714 | the scan in the buffer passes on exactly the commands of the line, up to the first that fails, and notes for each the place behind its last quotation mark |
| NshLine.ChopFrom | nshlib/nsh_parse.c:2604-2714 | reading a line from where a command begins gives that command and those behind it |
| NshLine.NotedIsRight | nshlib/nsh_parse.c:2633 | reading a line from the place noted for a command gives that command and those behind it if and only if no quotation mark comes before the end of the command or a comment |
| NshLine.QuotedTest | nshlib/nsh_parse.c:2633 | for the line `while t "a"` the place noted is the end of the line, where an empty command is read |
| NshArguments.EscapedIs | nshlib/nsh_parse.c:1009-1033 | a character is escaped if and only if an odd number of back-slashes stands directly before it |
| NshArguments.ArgEndIs | nshlib/nsh_parse.c:1587-1633 | an argument ends at the first terminator that is not escaped and has an even number of unescaped back-quotes before it, and not earlier |
| NshArguments.OrdinaryArg | nshlib/nsh_parse.c:1478-1744 | a word without special characters is one argument and is read as it stands |
| NshArguments.QuotedText | nshlib/nsh_parse.c:1544-1571 | quoted text is one argument, blanks, semicolons and comment signs included |
| NshArguments.SpacedArgs | nshlib/nsh_parse.c:2464-2522 | words with any blanks, tabs and newlines between them are the arguments |
| NshArguments.Redirected | nshlib/nsh_parse.c:1514-1528 | `a > b` and `a >> b`, with or without the blank, have the arguments `a`, the sign, and `b` |
| NshArguments.Commented | nshlib/nsh_parse.c:1530-1539 | what stands behind `#` is no argument |
| NshArguments.SubstitutedArg | nshlib/nsh_parse.c:1149-1398 | `$name` and `${name}` are the value of the variable, and a back-quoted command what it puts out |
| Dd.SkipHonoured | nshlib/nsh_ddcmd.c:411-420 | sectors are skipped if and only if there is nothing to skip or the offset fits and the file can seek |
| Dd.WrappedSkip | nshlib/nsh_ddcmd.c:411-420 | reading starts at the product of skip and sector size modulo 2^32, or at the beginning if that cannot be reached; skipping 2^23 + 1 sectors of 512 bytes starts at byte 512 |
| Dd.WantedIs | nshlib/nsh_ddcmd.c:422-448 | the wanted bytes are those of the input from the start on, for as many sectors as were asked for and are there |
| Dd.Transfer.ReadSector | nshlib/nsh_ddcmd.c:128-152 | succeeds if and only if no read fails, and then, however short the reads, the sector is full unless the input ends |
| Dd.Transfer.WriteSector | nshlib/nsh_ddcmd.c:96-122 | succeeds if and only if no write fails, and then, however short the writes, the sector is written; otherwise a beginning of it |
| Dd.Transfer.Seek | nshlib/nsh_ddcmd.c:411-420 | the start offset, with 32-bit wrap-around, or the beginning of the file |
| Dd.Transfer.Copy | nshlib/nsh_ddcmd.c:411-448 | succeeds if and only if no read and no write fails, and then the output is exactly the wanted bytes of the input; otherwise a beginning of them |
| FmEnvelope.ConfigureAccepts | audioutils/fmsynth/fmsynth_eg.c:108-137 | an accepted configuration has levels in range, and each ramp ends where the next begins |
| FmEnvelope.ConfigureFollowsLevels | audioutils/fmsynth/fmsynth_eg.c:44-137 | every ramp starts from the level before it, the attack from the level of rest, and takes its milliseconds in samples, rounded down |
| FmEnvelope.OutputLaw | audioutils/fmsynth/fmsynth_eg.c:163-197 | in a state from level a to level b with period n, call k puts out a value between them that is k out of n parts of the way from a, rounded towards a |
| FmEnvelope.OutputsGoOneWay | audioutils/fmsynth/fmsynth_eg.c:163-197 | over the calls of a state the outputs do not turn back, and the call after the last puts out the level of the next state that takes time |
| FmEnvelope.OutputsStayInRange | audioutils/fmsynth/fmsynth_eg.c:163-197 | no output of any run leaves the range |
| FmEnvelope.RunsForDuration | audioutils/fmsynth/fmsynth_eg.c:143-197 | a started envelope is released if and only if that many calls were made: the attack period and one, and each later period that is not zero and one |
| FmEnvelope.Generator.SetRamp | audioutils/fmsynth/fmsynth_eg.c:44-61 | one ramp is written to the parameters |
| FmEnvelope.Generator.SetParam | audioutils/fmsynth/fmsynth_eg.c:108-137 | all ramps are written, and success means that all of them were accepted |
| FmEnvelope.Generator.Start | audioutils/fmsynth/fmsynth_eg.c:143-147 | the attack begins |
| FmEnvelope.Generator.Operate | audioutils/fmsynth/fmsynth_eg.c:163-197 | one call is one tick, with ramps of no length passed over |
| FmSineTable.EntryRises | audioutils/fmsynth/fmsynth_op.c:39-111 | the entries of the table rise |
| FmWave.SinIsPeriodicExtension | audioutils/fmsynth/fmsynth_op.c:32-151 | for every integer phase the table look-up, mirrored indices and adjusted negative phases included, is the periodic extension of one interpolated quarter wave |
| FmWave.SinPeriod | audioutils/fmsynth/fmsynth_op.c:32-151 | it repeats after two pi |
| FmWave.SinOdd | audioutils/fmsynth/fmsynth_op.c:32-151 | it is odd |
| FmWave.SinMirrored | audioutils/fmsynth/fmsynth_op.c:123-151 | it is symmetric about pi half |
| FmWave.SinHalfPeriod | audioutils/fmsynth/fmsynth_op.c:123-151 | it changes sign after pi |
| FmWave.SinInRange | audioutils/fmsynth/fmsynth_op.c:123-151 | it stays within plus and minus 32767 |
| FmWave.SinRises | audioutils/fmsynth/fmsynth_op.c:123-151 | it rises between minus pi half and pi half |
| FmWave.SinInterpolates | audioutils/fmsynth/fmsynth_op.c:123-151 | between two entries of the table the sine is interpolated linearly, rounded down |
| FmWave.TriangleInRange | audioutils/fmsynth/fmsynth_op.c:157-193 | the triangle wave stays in range |
| FmWave.TriangleIsZigzag | audioutils/fmsynth/fmsynth_op.c:157-193 | the triangle is a zigzag of one period at full amplitude, rounded down |
| FmWave.PhaseIs | audioutils/fmsynth/fmsynth_op.c:157-193 | phases count modulo a period, and a negative phase has the opposite value |
| FmWave.SawtoothInRange | audioutils/fmsynth/fmsynth_op.c:199-203 | the sawtooth stays in range if and only if the phase is not in the last two steps of its period |
| FmWave.SawtoothRises | audioutils/fmsynth/fmsynth_op.c:199-203 | it starts each period at the lowest value and rises by one every two steps |
| FmWave.SquareIs | audioutils/fmsynth/fmsynth_op.c:209-213 | the first half of a period has the highest value, the other half the opposite, and negative phases the opposite of positive ones |
| FmOperator.OperateLaw | audioutils/fmsynth/fmsynth_op.c:500-521 | an operator puts out its wave at the phase, moved by feedback and by the sum of the operators below, times its envelope, rounded towards zero; its phase moves on, or starts anew at phase time zero |
| FmOperator.TruncateIs | audioutils/fmsynth/fmsynth_op.c:507 | the conversion of a phase to an integer rounds towards zero |
| FmOperator.ModulateOperates | audioutils/fmsynth/fmsynth_op.c:440-521 | every operator of a tree is operated once, on the sum of what the row below it then put out, and the result is the sum over the row |
| FmOperator.FeedbackLaw | audioutils/fmsynth/fmsynth_op.c:419-435 | feedback is the last output times the rate, rounded towards zero |
| FmOperator.OneInRange | audioutils/fmsynth/fmsynth_op.c:500-521 | the output of an operator with an accepted envelope and a sine, triangle or square wave is in range, for every phase and feedback |
| FmOperator.RowInRange | audioutils/fmsynth/fmsynth_op.c:500-521 | so are all operators of a tree, at every depth, and they stay so; a row of n adds up to at most n times the range |
| FmOperator.Operator.constructor | audioutils/fmsynth/fmsynth_op.c:255-284 | a new operator is alone and silent |
| FmOperator.Operator.UpdateFeedback | audioutils/fmsynth/fmsynth_op.c:419-435 | this operator and all below it take their feedback from last outputs, and nothing else changes |
| FmOperator.Operator.FetchFeedback | audioutils/fmsynth/fmsynth.c:48-55 | so do the operators beside it |
| FmOperator.Operator.Operate | audioutils/fmsynth/fmsynth_op.c:500-521 | the heap tree computes the recursive modulation and keeps its shape, its neighbours and its feedback |
| FmOperator.Operator.OperateRow | audioutils/fmsynth/fmsynth_op.c:510-514 | a row of operators adds up |
| FmSound.Sound.constructor | audioutils/fmsynth/fmsynth.c:114-127 | a new sound has full volume and phase time zero |
| FmSound.Sound.Modulate | audioutils/fmsynth/fmsynth.c:74-94 | feedback is fetched before any operator runs, the row is scaled by the volume, and the phase time moves on |
| FmSound.SoundInRange | audioutils/fmsynth/fmsynth.c:74-94 | a sound is at most as loud as its top-level operators times its volume |
| FmSound.VolumeLaw | audioutils/fmsynth/fmsynth.c:74-94 | a sound is its operators' sum times its volume, rounded towards zero, and at full volume the sum itself |
| FmSound.PhaseTimeCycles | audioutils/fmsynth/fmsynth.c:61-68 | phase time counts samples modulo its maximum |
| FmSound.Mix | audioutils/fmsynth/fmsynth.c:210-216 | the sounds are played once each and added up; the feedback of every operator is what it refers to put out last, in this sample if that belongs to a sound played before, and otherwise in the last |
| FmSound.BufferHoldsFrames | audioutils/fmsynth/fmsynth.c:208-221 | the frames fit into a buffer of the given number of samples if and only if the number of channels divides it |
| FmSound.Int16Is | audioutils/fmsynth/fmsynth.c:218-221 | a sample is the 16-bit value that equals the sum modulo 2^16 |
| FmSound.Render | audioutils/fmsynth/fmsynth.c:201-237 | each frame plays every sound once from its state after the frame before, and fills all channels; whole frames are counted; if the loudnesses add up to at most the full volume, the cast to 16 bits changes nothing |
| ModbusTable.FindIs | modbus/mb.c:395-411 | the scan finds the first slot with a code if and only if no slot before it is free |
| ModbusTable.PackedFinds | modbus/mb.c:395-411 | in a packed table it finds a handler if and only if a slot has the code |
| ModbusTable.FindServes | modbus/mb.c:395-411 | in any table it finds a handler if and only if a slot with the code and a handler comes before every free slot, and then the first one's |
| ModbusTable.RegisterStatus | modbus/mb.c:242-288 | a call is refused if and only if the code is out of range or a new handler finds the table full, and then changes nothing |
| ModbusTable.HiddenByHole | modbus/mb.c:395-411 | a code that a slot has is missed if and only if all its slots are behind a free one |
| ModbusTable.FindHandler | modbus/mb.c:395-411 | the loop computes the scan |
| ModbusTable.StaysSound | modbus/mb.c:243-290 | after any registrations and removals a slot's code is zero if and only if it has no handler |
| ModbusTable.StaysPacked | modbus/mb.c:243-290 | without removals used slots stay in front, no handler is in two of them, and every code held is found |
| ModbusTable.RemovalKeepsPacked | modbus/mb.c:265-279 | a removal keeps the table packed if and only if it empties the last used slot, or none |
| ModbusTable.RemovalHides | modbus/mb.c:265-279 | a removal can leave a code held but not found |
| ModbusTable.LastCodeKept | modbus/mb.c:251-264 | without removals a handler has the last code it was given, and is missing if and only if it was not in the table and every attempt found the table full |
| ModbusSlave.ActsOnlyForUs | modbus/mb.c:352-443 | in every run only an enabled slave acts, a handler runs only for a frame for this slave or for all and is that of the first slot with the code, and a reply is sent only for a frame for this slave alone |
| ModbusSlave.RequestIsServed | modbus/mb.c:352-443 | from every state of an enabled slave, after a frame and two polls: a handler is called if and only if the frame is good, for us or for all, and its code is served; a reply goes out if and only if it is for us alone, and is the handler's response, or the code with its top bit set and the exception |
| ModbusSlave.EnabledIff | modbus/mb.c:309-351 | over every run a slave is enabled if and only if it was switched so last |
| ModbusSlave.UnknownFunction | modbus/mb.c:393-427 | a request with a code that no slot has is answered with the exception for an illegal function, whatever holes the table has |
| ModbusSlave.Slave.constructor | modbus/mb.c:101-133 | the table that is built in is sound and packed |
| ModbusSlave.Slave.Init | modbus/mb.c:139-206 | succeeds if and only if the address is in range and the layers below come up, and then the stack is disabled with nothing queued |
| ModbusSlave.Slave.RegisterHandler | modbus/mb.c:243-290 | the two loops do what registration and removal mean, with all statuses |
| ModbusSlave.Slave.EnableStack | modbus/mb.c:311-328 | only a disabled stack can be enabled |
| ModbusSlave.Slave.DisableStack | modbus/mb.c:330-350 | an enabled stack is disabled, and one that was never initialized is refused |
| ModbusSlave.Slave.PollStack | modbus/mb.c:352-443 | one event is fetched and handled, and nothing happens unless the stack is enabled |
| ModbusMaster.Conservation | modbus/mb_m.c:274-436 | over every run each arrival is exactly once in the queue, done with or lost; it is done with within three handled events; and the bus is given back once for each |
| ModbusMaster.BusFreeOnce | modbus/mb_m.c:274-436 | in every run the bus is free at most once if and only if no more arrivals were done with than requests were made |
| ModbusMaster.RequestsAnswered | modbus/mb_m.c:274-436 | if the line answers only what was sent and a request waits for the result of the last, no event is lost although events are flags, at most one request has the bus, and each is told what came of it |
| ModbusMaster.FrameGetsVerdict | modbus/mb_m.c:304-431 | a frame that arrived is checked by one poll and carried out by the next: the request is told that it was damaged or from another slave, or what carrying it out came to |
| ModbusMaster.ExecutedIs | modbus/mb_m.c:324-376 | carrying out a response: an exception reply and a code that no slot serves call no handler and fail; otherwise the first slot's handler is called once for the slave that was asked, or for each slave in order, and its last result decides |
| ModbusMaster.RequestGetsVerdict | modbus/mb_m.c:274-434 | the whole way of a request from an idle master: it is sent, the line reports a frame, damage, a timeout or the end of a broadcast, and after at most three polls the request is told what came of it and the bus is free |
| ModbusMaster.ResultCollected | modbus/nuttx/portevent_m.c:278-310 | collecting tells that result and leaves the master idle |
| ModbusMaster.FetchFirst | modbus/nuttx/portevent_m.c:92-140 | of several events the first in order is fetched |
| ModbusMaster.ToldFirst | modbus/nuttx/portevent_m.c:278-310 | of several results the first in order is told |
| ModbusMaster.StrayArrival | modbus/mb_m.c:304-323 | a frame that no request waits for, damaged or from another slave, frees the bus twice |
| ModbusMaster.Master.constructor | modbus/nuttx/portevent_m.c:70-81 | no event is queued and the bus is free |
| ModbusMaster.Master.PostEvent | modbus/nuttx/portevent_m.c:83-95 | a flag is set; an event whose flag is set already is lost |
| ModbusMaster.Master.RunHandlers | modbus/mb_m.c:327-376 | exceptions of the slave, unknown functions, and one call, or for a broadcast one for every slave; master mode is on while handlers run and off afterwards |
| ModbusMaster.Master.PollStack | modbus/mb_m.c:274-436 | one event is fetched by priority and handled as the state machine says |
| Rle.Quantize | tools/bitmap_converter.py:48-58 | the first of the nearest palette entries, which is the color itself if the palette has it |
| Rle.DecodeEncode | tools/bitmap_converter.py:61-80 | the runs expand to the row |
| Rle.EncodeShortest | tools/bitmap_converter.py:61-80 | no list of runs of 1 to 255 pixels for the same row is shorter |
| Rle.EncodeRow | tools/bitmap_converter.py:61-80 | the loop makes runs of 1 to 255 pixels that expand to the nearest color of every pixel, and as few as possible |

## Left out

- Builds of NSH other than the one with quoting, argument concatenation, command parameters and NSH variables, and without background commands: so `nice`, `&` and redirection.
- Running commands: a command is a result from a list, and a back-quoted command is text from a function; processes, threads and temporary files are not part of this model.
- Memory exhaustion, and the limits on the length of a line and on the number of arguments.
- Splitting the value of a variable into several arguments (nshlib/nsh_parse.c:2476-2521).
- Scripts that start scripts, and the sign-on scripts.
- NshParser counts file offsets in commands; `NshBytes` connects them with the byte offsets of a text.
- NshBytes.TextRunsAsDocumented: the variables that a script refers to keep their values while it runs, so that a command has the same words each time it is read; a blank or comment line between a test and its `do` or `then` is left out.
- NshRefinement.ScriptRunsAsDocumented: leaves out `break`, which is in the invariant of all runs and in `NshBreak`, tests of loops with quotation marks, for which `NshBytes.LoopGoesBack` shows that a loop goes back to the wrong place, and under `set +e` a plain command with the end of its block behind it on its line: that skipping this is harmful is shown for the loops of `NshLayout.OneLoopDocumented` and not for every script, as a skipped `else` with nothing behind it does no harm.
- A line with a quotation mark that is not closed is an error of `NshLine.ParseLine` and of the driver of `NshBytes`, and not part of a script file.
- NshParser.Parser.Script: takes a number of turns, because a script may loop forever.
- NshVars.Store.FindVar: a comparison that runs past the end of the strings is excluded, as nothing is known of what it reads; `NshVars.DropLeavesNone` says when it does.
- The listing of variables by `set`, and the `verify` option, the option parsing and the statistics of `dd`.
- Dd.Transfer.Write: a write of no bytes, repeated forever, is not modelled.
- Phases and frequencies are real numbers, not floating point, and integers do not overflow 32 bits.
- The functions that link operators and sounds: a tree is taken as it stands, and shares no operators.
- FmOperator.Operator.OperateRow: the loop over operators side by side is a recursion, on the heap as the original.
- FmSound.Render: between frames the states of the sounds are values that do not say which operator refers to which, so that the feedback of a frame is stated by `FmSound.Mix` alone.
- FmSound.Mix: the linked list of sounds is a sequence of objects that share nothing; the tick callback is left out.
- Modbus framing, serial ports, timers and TCP; a frame that arrives while the last is still in the receive buffer.
- ModbusSlave.ActsOnlyForUs: initializing the stack again during a run is left out.
- ModbusMaster.RequestsAnswered: one request waits at a time; with more, results are flags in one word and may be given to the wrong one.
- The register functions of Modbus, the master's request functions beyond taking the bus and waiting, and the lifecycle of the master, which is that of the slave.
- All other applications, libraries and drivers of the package.
