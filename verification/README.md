# Verification of the HFT database toolkit

A Dafny model of five parts of the toolkit, with proofs that hold for all inputs and all runs.

- **Connection pool** (`ConnectionPool.dfy`, `PoolProtocol.dfy`). Every critical section is one atomic
  step. Factory, health check, time-outs and the scheduler's choices are arbitrary. The invariant is
  proved for every interleaving of any number of threads and handles.
- **SQL text** (`SqlLiterals.dfy`, `Placeholders.dfy`, `Templates.dfy`, `SybPreparedStatement.dfy`,
  `Rescanning.dfy`, `ReplaceOrder.dfy`, `QuotedTexts.dfy`, `StatementEnds.dfy`, `EntityRepository.dfy`,
  `InsertPaths.dfy`, `EntityStatements.dfy`, `SybaseStatement.dfy`, `OrmRepository.dfy`). Quoting, the two
  substitution algorithms, and the statements both repositories generate, against one definition of
  simultaneous substitution and one literal reader.
- **SQL service** (`Wire.dfy`, `BinaryRows.dfy`, `Session.dfy`, `Client.dfy`). Headers, the binary row
  format and its decoder, the server session as a state machine over a byte stream, and the client.
- **Command-line engine** (`HelpText.dfy`, `IntegerParser.dfy`, `CommandLine.dfy`, `Accounting.dfy`,
  `Readings.dfy`, `OptionParser.dfy`). Word wrap, integer parsing at any width, what a command line says,
  and the argument loop that finds it out.
- **Batch insert and result cache** (`BatchInsert.dfy`, `QueryResultCache.dfy`). All-or-nothing under
  any failure, and lazy eviction against an ideal timed map.

`Text.dfy` holds strings and numerals, `Selections.dfy` places in lists, `Wrappers.dfy` options and
results. `dafny verify dfyconfig.toml` checks everything.

Classes keep the fields their C++ counterparts update. Each method is proved against a function of the
old state, and the results are proved about that function; for each there are results that do not
mention it. Some long C++ loops are split into a loop and
one method per branch of its body (`HelpText.Wrap`, `OptionParser.MainLoop`); the cursors, flags and
tests are the original ones.

## Where the code differs from what one would expect

- Word wrap drops a last line that has one visible character: a later line's first character is not
  looked at before the white-space flag is reset (`VisibleTextSurvivesIff`, `LastWordCanVanish`).
- The integer parser's wrap test misses overflows (`OverflowCanSlipThrough`); what it accepts is exact
  only when the value fits (`AcceptedNumbersAreExactIff`).
- `buildFinalSQL` of the prepared statement confuses `$1` with `$10`. Having at most nine parameters and
  no longer digit runs is not enough: in `$$1` the inserted text can complete a later placeholder. For
  texts without `$` the exact condition on the template is `ReplaceOrder.Unambiguous`.
- It also scans inserted text again. On an unambiguous template a text that contains the placeholder of a
  later parameter is rewritten (`InsertedPlaceholderIsReplaced`), and nothing else goes wrong
  (`TextsSurviveIff`); only a template that uses no parameter but the last is right for every text
  (`SafeForEveryTextIff`).
- `SybaseStatement` replaces the first occurrence, which lies in an earlier value if that contains the
  placeholder. Generated statements come out right exactly when no value contains the placeholder of a
  later column (`InsertFillsInOrder`, `UpdateIsSimultaneous`).
- `insert` doubles backslashes and `insertPS` does not; `insertPS` rewrites strings with later placeholders;
  and from the tenth column on the two differ (`InsertPathsAgreeIff`, `TenthColumnGoesWrong`).
- Fields of unsupported types get a column and a placeholder but no value, so later values move to the
  left (`InsertCompleteIff`, `UpdateFillsInOrder`).
- When both rollback attempts of a failed batch fail without reaching the server, its rows stay pending
  on the connection, and the next batch's COMMIT makes them durable (`LeftoverBecomesDurable`).
- The cache's `put` and `get` ignore the enabled flag (`DisabledStillServes`).
- The parser's `option_requires_argument` branch (`include/cxxopts/cxxopts.hpp:2481-2485`) cannot be
  reached: the branches before it cover every position in the group.

## Model

| member | source | states |
|---|---|---|
| ConnectionPools.YieldsAllIff | include/hft/db/ConnectionPool.hpp:22-33 | Pre-creation fills the pool exactly when every factory call yields a connection. |
| ConnectionPools.YieldsInOrder | include/hft/db/ConnectionPool.hpp:22-33 | Each call leaves its connection in the place of the call, or none for a null or an exception. |
| ConnectionPools.ConnectionPool.constructor | include/hft/db/ConnectionPool.hpp:16-33 | The factory is called once per slot; nulls and exceptions are skipped and the rest queued in order. |
| ConnectionPools.ConnectionPool.Take | include/hft/db/ConnectionPool.hpp:50-64 | Refuses after shutdown; otherwise pops the front connection, and replaces it by the factory's answer when it is broken. |
| ConnectionPools.ConnectionPool.BeginAcquire | include/hft/db/ConnectionPool.hpp:40-65 | The first critical section of `acquire`: takes a connection, or joins the blocked threads. |
| ConnectionPools.ConnectionPool.ResumeAcquire | include/hft/db/ConnectionPool.hpp:44-65 | A woken thread re-evaluates the predicate: takes a connection even when its time is up, times out, or blocks again. |
| ConnectionPools.ConnectionPool.NotifyOne | include/hft/db/ConnectionPool.hpp:92 | Wakes one blocked thread of the scheduler's choice, if there is one. |
| ConnectionPools.ConnectionPool.Release | include/hft/db/ConnectionPool.hpp:68-93 | Queues a healthy connection or a broken one's replacement and notifies, also when nothing was queued; ignores null and does nothing after shutdown. |
| ConnectionPools.ConnectionPool.Shutdown | include/hft/db/ConnectionPool.hpp:106-116 | Empties the queue, sets the flag and wakes every blocked thread. |
| ConnectionPools.PooledConnection.constructor | include/hft/db/ConnectionPool.hpp:146-147 | The handle owns what `acquire` returned. |
| ConnectionPools.PooledConnection.Move | include/hft/db/ConnectionPool.hpp:160-161 | Moving transfers the ownership and empties the source handle. |
| ConnectionPools.PooledConnection.Destroy | include/hft/db/ConnectionPool.hpp:149-153 | A non-empty handle releases its connection once; an empty one leaves the pool alone. |
| PoolProtocol.StepKeepsInv | include/hft/db/ConnectionPool.hpp:40-116 | Every atomic step keeps the invariant: enough woken threads for the queue while someone is blocked, one owner per connection, releases balanced against hand-overs, connections counted. |
| PoolProtocol.RunKeepsInv | include/hft/db/ConnectionPool.hpp:40-116 | The invariant survives every interleaving of acquires, wake-ups, resumptions, moves, destructions and shutdown. |
| PoolProtocol.NoLostWakeup | include/hft/db/ConnectionPool.hpp:40-93 | In every reachable state with a blocked thread there are at least as many woken threads as available connections, and whichever runs next takes one. |
| PoolProtocol.QuiescentMeansDrained | include/hft/db/ConnectionPool.hpp:40-93 | When no woken thread is left to run, a blocked thread implies an empty queue. |
| PoolProtocol.Conservation | include/hft/db/ConnectionPool.hpp:16-93 | Before shutdown, queued + handed out + lost connections equal the pool size; nothing is lost while the factory always yields. |
| PoolProtocol.NoDeadConnection | include/hft/db/ConnectionPool.hpp:58-90 | In every reachable state no connection that failed its last health check is queued or owned by a handle. |
| PoolProtocol.QueueIsFirstInFirstOut | include/hft/db/ConnectionPool.hpp:22-90 | In every reachable state before shutdown the queue holds the connections that were created, came back healthy, or replaced a broken one, in order, less those taken from its front. |
| PoolProtocol.AcquireAnswers | include/hft/db/ConnectionPool.hpp:40-65 | In every reachable state an `acquire` that runs hands out the connection whose turn it is if it is healthy, and otherwise just what the factory yields; it waits or times out only on an empty queue, and is refused after shutdown. |
| PoolProtocol.NoThreadForgotten | include/hft/db/ConnectionPool.hpp:43-116 | Every thread inside `acquire` is blocked or woken and never both; after shutdown none is blocked. |
| PoolProtocol.ReleaseWakesOne | include/hft/db/ConnectionPool.hpp:68-93 | A release wakes exactly one blocked thread if there is one, even when it queued nothing. |
| PoolProtocol.NoSharedConnection | include/hft/db/ConnectionPool.hpp:39-93 | No two handles, and no handle and the queue, ever hold the same connection. |
| PoolProtocol.ReleasedExactlyOnce | include/hft/db/ConnectionPool.hpp:144-165 | Each hand-over is matched by exactly one release unless a handle still owns the connection, however often ownership moved. |
| PoolProtocol.ShutdownIsFinal | include/hft/db/ConnectionPool.hpp:44-116 | In every state after shutdown the queue is empty and nobody is blocked, every `acquire` that runs is refused, and no release puts anything back. |
| HelpText.ExpandTabs | include/cxxopts/cxxopts.hpp:2090-2114 | The column-counting loop computes tab expansion. |
| HelpText.TabsReachTabStops | include/cxxopts/cxxopts.hpp:2101-2106 | No tab survives, and the text behind each tab starts at a multiple of eight columns. |
| HelpText.ExpandedExpands | include/cxxopts/cxxopts.hpp:2090-2114 | Every character but the tabs stays, in order; each tab becomes one to eight blanks that end a multiple of eight characters behind the last newline. |
| HelpText.SkipNewlines | include/cxxopts/cxxopts.hpp:2140-2145 | The inner loop stops at the first character that is not a newline, inside the buffer. |
| HelpText.FallBack | include/cxxopts/cxxopts.hpp:2147-2155 | The cursor, moved backwards or not, ends where the reference line breaker ends the line. |
| HelpText.BreakLine | include/cxxopts/cxxopts.hpp:2157-2173 | Emits the line, its break and the indent, and what is left to emit starts at the new line. |
| HelpText.EndLine | include/cxxopts/cxxopts.hpp:2147-2177 | Where the cursor stops or falls back to, the line ends as in the reference, and the scan resumes behind it. |
| HelpText.Wrap | include/cxxopts/cxxopts.hpp:2116-2190 | The four-cursor loop terminates and prints what a line-by-line breaker that never moves back prints. |
| HelpText.FormatDescription | include/cxxopts/cxxopts.hpp:2065-2191 | The text laid out is the description, the default value in parentheses unless it is a switch being off, tabs expanded if asked for, and a space. Its lines follow each other, those broken for width with a newline, each later one behind `start` blanks; the last is printed less the space, or not at all if blank. |
| HelpText.WrappedIsRendered | include/cxxopts/cxxopts.hpp:2128-2188 | The printed text is the sequence of line pieces, each with its break and indent, followed by the last line. |
| HelpText.ReferenceIsLaidOut | include/cxxopts/cxxopts.hpp:2135-2177 | Each line ends at the newlines that come within its width, or behind the last blank that fits, or in the middle of a word that fills it. |
| HelpText.LayoutIsUnique | include/cxxopts/cxxopts.hpp:2135-2177 | There is only one way to cut a text into such lines. |
| HelpText.WrappedIsLaidOut | include/cxxopts/cxxopts.hpp:2116-2190 | What the loop prints are these lines, their breaks and indents, and the last line. |
| HelpText.LinesFit | include/cxxopts/cxxopts.hpp:2147-2155 | No line has more than `allowed` description characters; a line broken for width ends in a blank or is one full word. |
| HelpText.OnlyATailIsDropped | include/cxxopts/cxxopts.hpp:2184-2188 | Without breaks and indents the output is the buffer less the appended space, or less a last line that is blank from its second character on (from its first, on a first line). |
| HelpText.BreaksAsLateAsPossible | include/cxxopts/cxxopts.hpp:2147-2153 | No blank within the width lies behind a width break. |
| HelpText.VisibleTextSurvivesIff | include/cxxopts/cxxopts.hpp:2175-2188 | Every visible character is printed, exactly when the last line is not a later line whose only visible character is its first. |
| HelpText.LastWordCanVanish | include/cxxopts/cxxopts.hpp:2135-2188 | A description that loses its last word: `aaaaaaaaa b` at width 10. |
| IntegerParser.CheckedNegate | include/cxxopts/cxxopts.hpp:909-917 | The shifted cast negates every magnitude the signed type admits, zero and the minimum included. |
| IntegerParser.AccumulateDigits | include/cxxopts/cxxopts.hpp:939-969 | The wrapping loop yields the digits' value modulo 2^w, and fails exactly on a bad digit or a prefix that wraps to something smaller. |
| IntegerParser.ParseInteger | include/cxxopts/cxxopts.hpp:926-981 | The parser answers as the definition on unbounded numbers does: sign and base split, wrap test, range test, negation. |
| IntegerParser.FittingTextsAreAccepted | include/cxxopts/cxxopts.hpp:868-981 | Every decimal or 0x text whose value fits the target is accepted with exactly that value, for every width and signedness. |
| IntegerParser.AcceptedIsExactIff | include/cxxopts/cxxopts.hpp:926-981 | An accepted text gives its value modulo 2^w, and the very value exactly when that fits. |
| IntegerParser.LastDigitOverflowCaughtIff | include/cxxopts/cxxopts.hpp:962-966 | When the last digit overflows, the wrap test notices exactly if the residue is below the value before it. |
| IntegerParser.JustBeyondIsRejected | include/cxxopts/cxxopts.hpp:962-966 | Decimal texts up to about a ninth beyond the width are always rejected. |
| IntegerParser.OverflowCanSlipThrough | include/cxxopts/cxxopts.hpp:962-966 | An overflow the wrap test misses: `90000` as a 16-bit unsigned number is accepted as 24464. |
| IntegerParser.PrintedNumbersParse | include/cxxopts/cxxopts.hpp:926-981 | The decimal text of every number of the type parses back to it. |
| IntegerParser.FittingNumbersParse | include/cxxopts/cxxopts.hpp:596-623 | For all digit sequences, decimal or hexadecimal in either case, signed or not: a number that fits parses to itself. Digits are looked up in the list of digits, and nothing is taken from the split. |
| IntegerParser.AcceptedNumbersAreExactIff | include/cxxopts/cxxopts.hpp:926-981 | For the same texts, fitting or not: what is accepted is the number modulo 2^w, and the number itself exactly when it fits. |
| IntegerParser.OnlyNumbersParse | include/cxxopts/cxxopts.hpp:596-623 | Nothing else is accepted: no empty text, no sign or prefix without digits, no foreign digit, no minus sign for an unsigned type. |
| IntegerParser.PrintedHexadecimalsParse | include/cxxopts/cxxopts.hpp:609-623 | Hexadecimal round trip: `0x` and `-0x` followed by the printed digits of every fitting number, in either case, parse back to it. |
| IntegerParser.ByteRange | include/cxxopts/cxxopts.hpp:868-917 | Printed numbers come back exactly within the range of the type; for 8 bits that is -128 to 127, and 0 to 255. |
| OptionParsers.OptionParser.ParseOption | include/cxxopts/cxxopts.hpp:2277-2291 | Records one entry and one count, exactly when the value's text is accepted. |
| OptionParsers.OptionParser.CheckedParseArg | include/cxxopts/cxxopts.hpp:2293-2327 | Uses the implicit value if there is one, else the next argument; the error tells a missing argument from an unfit value; the cursor stays inside the arguments. |
| OptionParsers.OptionParser.ParseGroup | include/cxxopts/cxxopts.hpp:2444-2487 | A group of short options has the effect of its letters in order, the last one as a separate option, and leaves over unknown letters if that is allowed; the error is that of the first letter that cannot be read. |
| OptionParsers.OptionParser.SkipTaken | include/cxxopts/cxxopts.hpp:2340-2356 | The turns that only move the cursor end at the first positional option that can still take an argument, counting by recorded entries. |
| OptionParsers.OptionParser.ConsumePositional | include/cxxopts/cxxopts.hpp:2336-2364 | The argument goes to that option, and the cursor moves on past it unless it is a container; the call fails exactly when the slot names no option or does not accept the text, and consumes nothing exactly when no slot is left. |
| OptionParsers.OptionParser.ParseMatched | include/cxxopts/cxxopts.hpp:2441-2523 | A matched argument has exactly its flag's effect and uses itself, or itself and the next; it fails only when the flag cannot be parsed, with that error. |
| OptionParsers.OptionParser.ParseUnmatched | include/cxxopts/cxxopts.hpp:2419-2440 | An unmatched argument goes to the slot whose turn it is or is left over; it is an error exactly when it looks like an option or the slot does not take it. |
| OptionParsers.OptionParser.ParseArgument | include/cxxopts/cxxopts.hpp:2407-2526 | Each turn of the loop accounts for the arguments it passes, and passes at least one; it fails only on an argument at fault. |
| OptionParsers.OptionParser.MainLoop | include/cxxopts/cxxopts.hpp:2407-2526 | The loop terminates with the index at the end or behind the first separator, everything before it accounted for; if it fails, no parse of the command line exists, and the error is that of the first argument that cannot be read. |
| OptionParsers.OptionParser.ParseDefault | include/cxxopts/cxxopts.hpp:2259-2267 | Flags the option as defaulted and lists its default text. |
| OptionParsers.OptionParser.VisitDefault | include/cxxopts/cxxopts.hpp:2528-2543 | Visiting any name of an option keeps the list exact: one entry if it is due and not listed yet. |
| OptionParsers.OptionParser.ParseDefaults | include/cxxopts/cxxopts.hpp:2528-2543 | Each option with a default that was not given is listed exactly once, in whatever order the table is walked; the pass fails exactly when such a default is no value of its option. |
| OptionParsers.OptionParser.FillPositionals | include/cxxopts/cxxopts.hpp:2547-2553 | Behind the separator arguments are positionals as long as there is a slot. |
| OptionParsers.OptionParser.CollectLeftovers | include/cxxopts/cxxopts.hpp:2555-2559 | All arguments from then on are leftovers, in order. |
| OptionParsers.OptionParser.ConsumeRemaining | include/cxxopts/cxxopts.hpp:2545-2560 | Everything behind the separator is accounted for; if this fails, no parse of the command line exists. |
| OptionParsers.OptionParser.RegisterNames | include/cxxopts/cxxopts.hpp:2574-2579 | All names of an option lead to its storage key, and no other name changes. |
| OptionParsers.OptionParser.FinaliseAliases | include/cxxopts/cxxopts.hpp:2568-2583 | Afterwards every name of every option leads to an existing entry. |
| OptionParsers.OptionParser.Finish | include/cxxopts/cxxopts.hpp:2528-2565 | The passes after the main loop leave what it recorded in place, and give counts and defaults. |
| OptionParsers.OptionParser.Parse | include/cxxopts/cxxopts.hpp:2398-2566 | For any parser, whether it allows unrecognised options or not: the parse succeeds exactly when the command line has a reading with acceptable values and defaults, and reports what that reading says: which text each flag, each letter of a group and each positional argument records, the leftovers, counts equal to the number of entries and equal for aliases, and each default not given before the separator once. If it fails, the error is that of the first argument that cannot be read, or of a default. |
| Accounting.AccountFlag | include/cxxopts/cxxopts.hpp:2441-2525 | A matched argument extends the accounting as a flag: its effect's entries and leftovers are added, and it waits for the next argument exactly when its effect takes one. |
| Accounting.RolesAreDetermined | include/cxxopts/cxxopts.hpp:2407-2560 | The arguments alone determine every role: any two accountings of the first arguments are the same. |
| Accounting.ParseIsUnique | include/cxxopts/cxxopts.hpp:2398-2566 | A command line has at most one parse. |
| Readings.AccountingIsReading | include/cxxopts/cxxopts.hpp:2407-2560 | What the parser accounts for is a reading: an option without a value records its implicit value, or else takes the next argument; `=` gives it its own text; letters of a group record their implicit values until one takes the rest; positionals go to the first option that is still open. |
| Readings.ReadingIsAccounting | include/cxxopts/cxxopts.hpp:2407-2560 | And every reading is what the parser accounts for. |
| Readings.ReadingIsUnique | include/cxxopts/cxxopts.hpp:2398-2566 | A command line has at most one reading. |
| Readings.FlagReadsIff | include/cxxopts/cxxopts.hpp:2441-2523 | A flag adds exactly what its reading says and takes the next argument exactly when that says so. |
| Readings.CursorPassesTaken | include/cxxopts/cxxopts.hpp:2336-2364 | The positional cursor is only a short cut: it has passed just the options that take no more arguments. |
| Readings.BlameAt | include/cxxopts/cxxopts.hpp:2407-2560 | An argument that fails behind arguments that read as a command line of their own is the one the error is about. |
| Readings.BlameDefault | include/cxxopts/cxxopts.hpp:2528-2543 | A default that fails is blamed when everything up to the separator has been read. |
| Accounting.FaultRefutes | include/cxxopts/cxxopts.hpp:2407-2560 | Once an argument is at fault, no accounting of the whole command line exists, however the rest is read. |
| Accounting.DefaultsRefute | include/cxxopts/cxxopts.hpp:2528-2543 | Nor does one exist when a default that is due is no value of its option. |
| Accounting.TakeDefault | include/cxxopts/cxxopts.hpp:2535-2538 | Listing a default keeps the list and the flags of all other options as they were. |
| Accounting.Distinct | include/cxxopts/cxxopts.hpp:1315 | Options with distinct storage keys and names are told apart by either alone. |
| SqlLiterals.EscapePerCharacter | src/sybase/SybPreparedStatement.cpp:37-45 | The character loop doubles every quote and nothing else. |
| SqlLiterals.EscapeInPlace | src/db/SybaseConnection.cpp:177-183 | Inserting quotes in place while searching on terminates and gives the same text. |
| SqlLiterals.EscapeString | include/hft/repository/Repository.hpp:257-269 | The repository's loop doubles quotes and backslashes. |
| SqlLiterals.QuotingRoundTrip | src/db/SybaseConnection.cpp:173-185 | A reader of section 5.3 literals of ISO/IEC 9075-2 returns the original string and stops at the closing quote, whatever follows other than a quote. |
| SqlLiterals.LiteralIsUnique | src/db/SybaseConnection.cpp:173-185 | Only the quoted text reads back as a given string. |
| SqlLiterals.EscapersAgreeIff | include/hft/repository/Repository.hpp:257-269 | The repository's escaper agrees with the other two exactly on strings without a backslash. |
| SqlLiterals.EscapedReadsBackIff | include/hft/repository/Repository.hpp:194-195 | The literal `insert` writes reads back as the stored string exactly when that has no backslash. |
| SqlLiterals.EscapedReadsBackThere | include/hft/repository/Repository.hpp:257-269 | On a server where a backslash stands for the character behind it, the literal reads back for every string. |
| SybPreparedStatements.SybPreparedStatement.Store | src/sybase/SybPreparedStatement.cpp:19-31 | An index below one is an error; otherwise the list grows as needed and only that slot changes. |
| SybPreparedStatements.SybPreparedStatement.BindInt | src/sybase/SybPreparedStatement.cpp:19-24 | Stores the decimal text of the value. |
| SybPreparedStatements.SybPreparedStatement.BindString | src/sybase/SybPreparedStatement.cpp:33-47 | Stores the quoted literal. |
| SybPreparedStatements.ReplacePass | src/sybase/SybPreparedStatement.cpp:55-60 | The find-and-replace loop terminates though the text may grow, and equals replacing all occurrences from the left. |
| SybPreparedStatements.PassReplacesEach | src/sybase/SybPreparedStatement.cpp:55-60 | A pass cuts the text at the occurrences of the placeholder, each the first behind the last cut, and puts the value into every cut. |
| SybPreparedStatements.SybPreparedStatement.BuildFinalSQL | src/sybase/SybPreparedStatement.cpp:49-63 | One replace-all pass per parameter, in order. |
| Rescanning.PassSplit | src/sybase/SybPreparedStatement.cpp:55-60 | A pass works on both sides of a seam separately, when the left side ends in neither `$` nor a digit or the right side starts with no digit. |
| Rescanning.RescanIff | src/sybase/SybPreparedStatement.cpp:55-60 | The passes after the one that inserted a text leave it alone exactly when it contains none of their placeholders; otherwise one of its `$` has been overwritten. |
| Rescanning.StoredTextsAreSealed | src/sybase/SybPreparedStatement.cpp:23-46 | Every text stored for an integer or a string is of the kind the results on any texts ask for. |
| ReplaceOrder.PassesAreSubst | src/sybase/SybPreparedStatement.cpp:49-63 | On an unambiguous template, the passes so far substitute those parameters all at once, each text as the later passes have left it; for all texts the statement stores, `$` included. |
| ReplaceOrder.PassesAreSimultaneousIff | src/sybase/SybPreparedStatement.cpp:49-63 | For all lists of `$`-free texts the passes equal one simultaneous substitution, exactly when no longer digit run starts with a bound digit and no `$` directly precedes a placeholder other than the last. |
| ReplaceOrder.TextsSurviveIff | src/sybase/SybPreparedStatement.cpp:49-63 | For any texts, `$` included: on such a template the passes equal the simultaneous substitution exactly when no text the template uses contains the placeholder of a later parameter. |
| ReplaceOrder.SafeForEveryTextIff | src/sybase/SybPreparedStatement.cpp:49-63 | A template is right for every list of texts exactly when, besides, it uses no parameter but the last. |
| ReplaceOrder.InsertedPlaceholderIsReplaced | src/sybase/SybPreparedStatement.cpp:55-60 | `$1, $2` with the string `$2` and the number 7 gives `'7', 7` and not `'$2', 7`. |
| ReplaceOrder.BadRunShows | src/sybase/SybPreparedStatement.cpp:53-60 | `$12` with a parameter 1: some texts come out wrong whenever a longer run starts with a bound digit. |
| ReplaceOrder.BadGapShows | src/sybase/SybPreparedStatement.cpp:53-60 | `$$1`: the inserted text can complete a later placeholder, so some texts come out wrong. |
| EntityRepository.BuildColumnList | include/hft/repository/Repository.hpp:176-184 | Skips the key, separates, appends the name and clears the flag. |
| EntityRepository.BuildValuesList | include/hft/repository/Repository.hpp:186-200 | Skips the key, separates, appends the literal and clears the flag. |
| EntityRepository.BuildPlaceholderList | include/hft/repository/Repository.hpp:231-239 | Skips the key, separates, appends the numbered placeholder and counts on. |
| EntityRepository.BindParameter | include/hft/repository/Repository.hpp:241-255 | Binds int, double and string fields at the next index; other types neither bind nor count. |
| EntityRepository.ColumnList | include/hft/repository/Repository.hpp:107-111 | The fold over the columns is the comma-separated list of the non-key names. |
| EntityRepository.ValuesList | include/hft/repository/Repository.hpp:59-63 | The fold is the comma-separated list of the non-key literals. |
| EntityRepository.PlaceholderList | include/hft/repository/Repository.hpp:115-119 | The fold is `$1` to `$n` for the n non-key columns. |
| EntityRepository.Insert | include/hft/repository/Repository.hpp:47-68 | The statement `insert` sends: names and literals of the non-key columns, in the same order. |
| EntityRepository.InsertPS | include/hft/repository/Repository.hpp:102-132 | The statement `insertPS` sends through the replacing prepared statement. |
| EntityStatements.InsertSent | include/hft/repository/Repository.hpp:47-68 | For every entity, the INSERT lists the columns that are not the key in order, and for each the decimal number, the quoted and escaped string, or what the stream prints. |
| EntityStatements.InsertPSSentIff | include/hft/repository/Repository.hpp:102-132 | With at most nine columns of any types, `insertPS` sends each column's own value in its place, strings as literals that read back, exactly when every type is one that is bound and no value contains the placeholder of a later column. |
| QuotedTexts.OccursInQuotedIff | src/sybase/SybPreparedStatement.cpp:37-46 | Quoting neither makes nor breaks placeholders. |
| QuotedTexts.RenderingsDiverge | include/hft/repository/Repository.hpp:194-195 | What the passes have made of a stored string equals the literal of `insert` exactly when the string has no backslash and is unchanged; otherwise the two differ at some place. |
| InsertPaths.GeneratedInsertFilled | src/sybase/SybPreparedStatement.cpp:49-63 | For any number of columns and of bound values, what the passes make of a generated INSERT: the place of `$k` gets the value of k's leading digit, as later passes have left it, followed by k's other digits, and stays if there is no such value. |
| InsertPaths.FilledIsStoredIff | src/sybase/SybPreparedStatement.cpp:55-60 | Up to the ninth column the stored text comes out exactly when its string contains no placeholder of a later column. |
| InsertPaths.JoinInjective | include/hft/repository/Repository.hpp:187-200 | A value list is uniquely readable: equal texts of equally many values have equal values, commas inside literals included. |
| InsertPaths.InsertPathsAgreeIff | include/hft/repository/Repository.hpp:47-132 | For any integers and strings, the two insert paths send the same text exactly when strings one to nine have no backslash and contain no placeholder of a later column, and each later value happens to equal what its number's leading digit puts there. |
| InsertPaths.NineColumnsAgreeIff | include/hft/repository/Repository.hpp:47-132 | Up to nine columns, exactly a backslash or the placeholder of a later column sets the paths apart. |
| InsertPaths.InsertPSIsSimultaneousIff | include/hft/repository/Repository.hpp:102-132 | What `insertPS` sends is the simultaneous substitution of the generated INSERT exactly when strings one to nine contain no placeholder of a later column and each later column happens to come out right. |
| InsertPaths.TenthColumnGoesWrong | include/hft/repository/Repository.hpp:102-132 | Ten integer columns with one value: the prepared path always sends something else. |
| SybaseStatements.SybaseStatement.Store | src/db/SybaseConnection.cpp:166-171 | The list grows as needed and only the bound slot changes. |
| SybaseStatements.SybaseStatement.BindInteger | src/db/SybaseConnection.cpp:152-164 | Stores the decimal text of the value. |
| SybaseStatements.SybaseStatement.BindString | src/db/SybaseConnection.cpp:173-185 | Stores the quoted literal. |
| SybaseStatements.SybaseStatement.BuildSQL | src/db/SybaseConnection.cpp:194-208 | Replaces the first occurrence of each placeholder, in order. |
| SybaseStatements.StepReplacesFirst | src/db/SybaseConnection.cpp:198-205 | For any text, each step replaces the first occurrence of its placeholder, wherever it is, and changes nothing if there is none. |
| SybaseStatements.FirstDollarIsPlaceholder | src/db/SybaseConnection.cpp:198-205 | With no occurrence of it in the text before, a placeholder is the first match of its own text, even if the rest holds longer numbers. |
| SybaseStatements.InOrderIsFilled | src/db/SybaseConnection.cpp:194-208 | A template with its placeholders in order is filled from the left, for any number of placeholders, and the unfilled ones stay, as long as no value contains a later placeholder; otherwise a `$` that should have stayed is overwritten. |
| SybaseStatements.InOrderLength | src/db/SybaseConnection.cpp:194-208 | Whatever is overwritten, the length of the result and the placeholders left at its end are those of the template filled in order. |
| Templates.InOrderIsSimultaneous | src/db/SybaseConnection.cpp:194-208 | Filling in order is the simultaneous substitution when no text behind a placeholder starts with a digit. |
| SybaseStatements.InOrderTemplate | src/db/SybaseConnection.cpp:194-208 | For a whole template of n placeholders and at most n values: filled in order exactly when no value contains a later placeholder, and with n values that is the simultaneous substitution. |
| OrmRepository.WriteList | include/hft/orm/Repository.h:82-92 | The loop with its last-item test writes the comma-separated list. |
| OrmRepository.BindField | include/hft/orm/Repository.h:202-210 | Binds the supported types at the next index; a bool neither binds nor counts. |
| OrmRepository.BindEntityToStatement | include/hft/orm/Repository.h:190-212 | The statement holds the texts of the supported non-key fields, in field order. |
| OrmRepository.Insert | include/hft/orm/Repository.h:63-100 | The INSERT that is sent. |
| OrmRepository.CollectUpdates | include/hft/orm/Repository.h:113-123 | One assignment per non-key field, numbered in order, and the last key's 64 bits, whatever the key's type. |
| OrmRepository.Update | include/hft/orm/Repository.h:105-137 | The UPDATE that is sent. |
| OrmRepository.InsertFillsInOrder | include/hft/orm/Repository.h:63-100 | For any number of columns and any strings the INSERT holds the bound values in order, then the placeholders left over, exactly when no value contains the placeholder of a later column; with supported types that is the simultaneous substitution. |
| OrmRepository.InsertCompleteIff | include/hft/orm/Repository.h:63-100 | Each column of the INSERT that is sent gets its own field's value exactly when every non-key field is of a supported type and no value contains the placeholder of a later column. |
| OrmRepository.InsertSentIff | include/hft/orm/Repository.h:63-100 | The INSERT names the non-key columns in order, each with its own number, string literal or double, exactly when all their types are bound and no value contains the placeholder of a later column. |
| OrmRepository.UpdateFillsInOrder | include/hft/orm/Repository.h:105-137 | The UPDATE holds the bound values in order, blanks where none was left, and the key's value in the WHERE clause, as long as no value contains a later placeholder; its length is that of this text in any case. |
| OrmRepository.UpdateIsSimultaneous | include/hft/orm/Repository.h:105-137 | With supported types the UPDATE is the simultaneous substitution, for any number of columns and any strings, exactly when no value contains a later placeholder, the key's included. |
| OrmRepository.UpdateCompleteIff | include/hft/orm/Repository.h:105-137 | Each assignment of the UPDATE that is sent carries its own field's value, and the WHERE clause the key, exactly when every non-key field is of a supported type and no value contains a later placeholder. |
| OrmRepository.UpdateSentIff | include/hft/orm/Repository.h:105-137 | The UPDATE assigns each non-key column its own value in order and ends in the key's number, that of the last int64 key, or 0 without a key, exactly under that condition, in which the key counts as the last value. |
| Wire.NumberRoundTrip | asio-sql-service/common/protocol.hpp:35-54 | Reading four big-endian bytes undoes writing them. |
| Wire.BytesRoundTrip | asio-sql-service/common/protocol.hpp:35-54 | Writing undoes reading: any four bytes are those of the number they read as. |
| Wire.PushNumber | asio-sql-service/server/sql_server.hpp:257-267 | The four shifted pushes write the number big-endian. |
| Wire.ReadNumber | asio-sql-service/client/client_main.cpp:65-70 | The shift-or expression reads the big-endian number, and no byte outside the buffer. |
| Wire.Serialize | asio-sql-service/common/protocol.hpp:30-42 | Five bytes: the type, then the size. |
| Wire.HeaderLayout | asio-sql-service/common/protocol.hpp:30-42 | Byte by byte: the type, then the size with its most significant byte first. |
| Wire.HeaderRoundTrip | asio-sql-service/common/protocol.hpp:30-56 | A header survives the wire whatever follows it. |
| Wire.HeaderBytesRoundTrip | asio-sql-service/common/protocol.hpp:44-56 | Any five bytes are the serialisation of the header they read as. |
| BinaryRows.EncodeTable | asio-sql-service/server/sql_server.hpp:253-279 | The nested loops append the counts and every cell with its length. |
| BinaryRows.DecodeRow | asio-sql-service/client/client_main.cpp:84-108 | The inner loop reads the cells of one row and stops at the first read that would pass the end. |
| BinaryRows.DecodeTable | asio-sql-service/client/client_main.cpp:52-111 | The decoder's answer: a table with the bytes it used, or one of its three complaints; no byte is read outside the input. |
| BinaryRows.TableRoundTrip | asio-sql-service/server/sql_server.hpp:253-279 | Decoding an encoded table returns exactly its rows, whatever bytes follow it. |
| BinaryRows.DecodedIsEncoded | asio-sql-service/client/client_main.cpp:52-111 | Whatever decodes is the encoding of the table it decodes to. |
| BinaryRows.DecodesIff | asio-sql-service/client/client_main.cpp:52-111 | An input decodes to a table exactly when it starts with that table's encoding. |
| BinaryRows.TruncationIsReported | asio-sql-service/client/client_main.cpp:85-99 | No proper prefix of an encoded table decodes. |
| BinaryRows.ComplaintsIff | asio-sql-service/client/client_main.cpp:55-99 | For any input, which complaint is made: fewer than eight bytes; or behind complete cells a length that is cut; or a length that reaches beyond the end. |
| BinaryRows.EncodingIsInjective | asio-sql-service/server/sql_server.hpp:253-279 | Tables with the same bytes are the same. |
| BinaryRows.TableLayout | asio-sql-service/server/sql_server.hpp:253-279 | Byte by byte: the number of rows, the number of columns, and row by row each cell behind its length, most significant bytes first. |
| Sessions.Session.OnHeader | asio-sql-service/server/sql_server.hpp:29-49 | With five bytes there, the header is consumed and the payload awaited. |
| Sessions.Session.OnPayload | asio-sql-service/server/sql_server.hpp:51-65 | With the announced bytes there, the request is handled. |
| Sessions.Session.HandleRequest | asio-sql-service/server/sql_server.hpp:67-94 | Exactly one reply is started, of the request's response type, or ERROR when the type is unknown or the handler throws. |
| Sessions.Session.SendResponse | asio-sql-service/server/sql_server.hpp:421-464 | The reply is the header, with its size cut to 32 bits, and the payload. |
| Sessions.Session.OnWritten | asio-sql-service/server/sql_server.hpp:433-438 | Only a completed write leads to the next header. |
| Sessions.RunInStep | asio-sql-service/server/sql_server.hpp:29-94 | In every state of every run, what was sent, what is being written and what the unread input will bring add up to the replies to the whole stream. |
| Sessions.RepliesInLockstep | asio-sql-service/server/sql_server.hpp:29-94 | The completed replies are always an initial part of one reply per request frame, in order, and all of them at rest. |
| Sessions.PiecesDoNotMatter | asio-sql-service/server/sql_server.hpp:34-64 | The way the network splits the stream does not change the replies. |
| Sessions.NoReadWhileWriting | asio-sql-service/server/sql_server.hpp:29-65 | In every state of every run the headers read are the replies completed, plus one while a request is in progress, so no header is read while a reply is pending. |
| Sessions.ErrorIsFinal | asio-sql-service/server/sql_server.hpp:45-63 | After an error nothing more is read, handled or sent. |
| Clients.SqlClient.SendRequest | asio-sql-service/client/sql_client.hpp:124-136 | Writes the request's frame to the stream. |
| Clients.SqlClient.ReceiveResponse | asio-sql-service/client/sql_client.hpp:138-152 | Successive calls return the successive messages of the stream, and fail exactly when no complete one is left. |
| Clients.SqlClient.Query | asio-sql-service/client/sql_client.hpp:32-121 | Sends one request, takes one message, and classifies it by its type; later messages stay unread. |
| Clients.FrameReadsBackIff | asio-sql-service/client/sql_client.hpp:124-152 | A message is received as sent exactly when its size fits 32 bits. |
| Clients.ClientReadsReplies | asio-sql-service/client/sql_client.hpp:138-152 | For any sequence of requests and any run of the session, the k-th message the client receives is the k-th reply, and at rest there are exactly as many as requests. |
| Clients.KthQueryGetsItsAnswer | asio-sql-service/client/sql_client.hpp:32-121 | A query fails exactly when its handler failed, with that error, and never with an unexpected response type. |
| Clients.RepliesByType | asio-sql-service/server/sql_server.hpp:67-94 | Requests of type 1 to 4 are answered with type 11 to 14, failed requests and those of any other type with 99; the body is the handler's. |
| Clients.CrossedRepliesAreNoticed | asio-sql-service/client/sql_client.hpp:32-121 | A query call accepts its own kind of reply, reports errors, and notices a reply of another kind. |
| BatchInsert.PgTransaction.Commit | src/pg/PgTransaction.cpp:23-41 | An error when not active; otherwise one COMMIT, after which the transaction is inactive exactly if it succeeded. |
| BatchInsert.PgTransaction.Rollback | src/pg/PgTransaction.cpp:43-61 | An error when not active; otherwise one ROLLBACK, after which the transaction is inactive exactly if it succeeded. |
| BatchInsert.PgTransaction.Destroy | src/pg/PgTransaction.cpp:12-21 | A transaction still active is rolled back once more and errors are swallowed. |
| BatchInsert.BeginTransaction | src/pg/PgConnection.cpp:74-93 | One BEGIN; only a successful one gives a transaction object. |
| BatchInsert.RollbackAndRethrow | include/hft/repository/Repository.hpp:141-144 | Rollback in the handler, the retry in the destructor, and the error that escapes. |
| BatchInsert.InsertBatch | include/hft/repository/Repository.hpp:134-145 | The loop and its handler, over every possible fate of every command. |
| BatchInsert.AllOrNothing | include/hft/repository/Repository.hpp:134-145 | Durable rows grow by the whole list in order when the call returns normally and not at all when it throws; at most one COMMIT or ROLLBACK succeeds; only a failed rollback leaves a transaction open. |
| BatchInsert.OutcomeByFirstFailure | include/hft/repository/Repository.hpp:134-145 | The first command that fails decides which error the caller sees, unless the rollback fails too, and how many commands are sent. |
| BatchInsert.RunIsAllOrNothingIff | include/hft/repository/Repository.hpp:134-145 | Over any run of batches on a connection the durable rows are those of the batches that returned normally, exactly when none of these began with rows of a failed one pending. |
| BatchInsert.CleanRollbacksSuffice | src/pg/PgTransaction.cpp:12-61 | A caller that saw no failed rollback can rely on it. |
| BatchInsert.LeftoverBecomesDurable | src/pg/PgTransaction.cpp:12-21 | Otherwise rows of a failed batch can become durable with the next one. |
| QueryResultCaches.QueryResultCache.Put | include/hft/db/QueryResultCache.hpp:28-37 | Stores the value with its expiry, replacing an older entry. |
| QueryResultCaches.QueryResultCache.Get | include/hft/db/QueryResultCache.hpp:40-55 | Answers the live value or nothing, and drops an entry found expired. |
| QueryResultCaches.QueryResultCache.Contains | include/hft/db/QueryResultCache.hpp:58-72 | True exactly for a live entry; drops an entry found expired. |
| QueryResultCaches.QueryResultCache.Cleanup | include/hft/db/QueryResultCache.hpp:81-92 | Erasing while iterating, with the clock read anew per entry: what was expired at the start goes, what is live at the end stays, and of the others any may. |
| QueryResultCaches.QueryResultCache.SetEnabled | include/hft/db/QueryResultCache.hpp:101-107 | Switching off empties the cache. |
| QueryResultCaches.EvictionIsInvisible | include/hft/db/QueryResultCache.hpp:40-92 | Over any run with a clock that never goes back, within a cleanup or between calls, lookups answer as the latest put since the last clearing, compared with now. |
| QueryResultCaches.LookupsEvictExactly | include/hft/db/QueryResultCache.hpp:40-72 | A lookup of a key whose latest put has expired drops that entry, and no lookup drops anything else. |
| QueryResultCaches.CleanupLeavesTheLive | include/hft/db/QueryResultCache.hpp:81-98 | A cleanup leaves every entry live when it ends and none that was not when it began; within one instant the size counts exactly the live entries. |
| QueryResultCaches.DisabledStillServes | include/hft/db/QueryResultCache.hpp:28-55 | What is put after switching off is still served until it expires. |

## Left out

- Sockets, threads, libpq, DB-Library and Asio as such: a socket is a byte sequence, a read completes with
  exactly the requested bytes, a database is a list of committed rows with an optional open transaction.
- The lifetime of the header and payload buffers given to the asynchronous write
  (`asio-sql-service/server/sql_server.hpp:426-434`): a reply's bytes are taken at the call.
- JSON: RAW, JSON, STREAM and error payloads are opaque bytes, and so is a request's SQL text.
- What a handler computes: any function of the request's number, type and payload.
- The text of floating-point numbers: opaque, and assumed free of `$` and not empty where that matters.
- Real durations in the pool: time-outs and spurious wake-ups may happen at any moment.
- The pool's destructor, which is `Shutdown`, and its two statistics getters.
- `PoolProtocol`: a connection the factory yields is assumed to be a new object.
- Tokenising an argument (regular expressions or the hand-written scanner) and parsing a value's text: both
  are parameters of `OptionParsers`; integers are treated on their own in `IntegerParser`.
- `IntegerParser.ParseInteger`: uses the hand-written sign and base split
  (`include/cxxopts/cxxopts.hpp:596-623`), on texts without NUL characters.
- `OptionParsers.OptionParser.Parse`: assumes distinct storage keys for distinct options, where the code
  has a hash that could collide, and one table entry per name. Counts are unbounded. The entries that
  `parse_no_value` creates are those `FinaliseAliases` creates anyway.
- `HelpText.FormatDescription`: the width is positive; the caller passes at least 10
  (`include/cxxopts/cxxopts.hpp:2685-2690`). Unicode strings and the rest of the help layout are left out.
- `OrmRepository.Update`: the 64 bits that the cast reads at a key of another type than int64 are an
  arbitrary number.
- `OrmRepository.InsertFillsInOrder`: table and column names are free of `$`, as for all main results about
  generated statements.
- `OrmRepository.UpdateFillsInOrder`: with a type that is not bound and a value that contains a later
  placeholder at the same time, only the length of the UPDATE is given, and that it is not complete.
- `EntityStatements.InsertPSSentIff`: at most nine columns; for more, `InsertPaths.GeneratedInsertFilled`
  says what is sent.
- `InsertPaths.InsertPathsAgreeIff`: for integer and string columns only, as the text of a double differs
  between the two paths.
- `ReplaceOrder.TextsSurviveIff`: the template is unambiguous, and the texts are as the statement stores
  them: not empty, starting with neither `$` nor a backslash, and free of `$` or ending in another character
  than `$` and digits.
- `Sessions.Session.OnHeader`: resizing the payload buffer may throw inside the header callback
  (`asio-sql-service/server/sql_server.hpp:38-44` and line 54); an error reply then goes out with the
  payload unread, after which the session is no longer in step. Memory is taken to suffice.
- Values of `std::int32_t` and `int` parameters as bounded numbers, and parameter indexes beyond `int`:
  numbers that are only printed are unbounded.
- `SybaseStatement` binding at index zero or below, which the code does not guard, and `bindNull`.
- Updates, deletes and lookups by literal in `hft::repository`, lookups in `orm`, and result mapping.
- `size_t` overflow in the decoder's bounds test: offsets are unbounded, as they effectively are at 64 bits.
- `BatchInsert.AllOrNothing`: a COMMIT that is reported as failed counts as not committed; the ambiguity of
  a connection lost during COMMIT is not modelled. One insertion is one command.
- `QueryResultCaches.QueryResultCache`: the clock is a parameter, and expiry times do not overflow. The
  singleton and the mutex are left out: each call is one step.
- `PreparedStatementCache`, `Logger`, the catalog, code generators, type tables and console programs: they
  would add only easy members.
- `hft::db::PostgreSQLTransaction`, which becomes inactive even when COMMIT fails.
