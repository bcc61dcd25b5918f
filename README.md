# A verified model of the AI Calculator core

This project models, in Dafny, the core logic of a desktop calculator. The calculator is an Electron and
React application written in TypeScript. The model covers:

- **The calculation engine** (`CalculationEngine`). It prepares an expression before evaluation:
  - it trims the text;
  - it rewrites `×` and `÷`;
  - it inserts implicit `*`;
  - it rewrites `π` and the Cyrillic `е`.

  In programmer mode it also:
  - turns standalone hex letters and `0x`, `0b` and `0o` literals into decimal;
  - rewrites `~n`;
  - sanitises the text before the bitwise evaluation.

  It maps error messages and computes `factorial`, `toHex`, `toBinary` and `toOctal`. Its mode is a
  field of the `Engine` class.
- **The number formatter** (`NumberFormatter`). It groups digits in the international style
  (`1,000,000`) and the Indian style (`10,00,000`), and `unformat` removes the commas again. The two
  grouping loops are methods. Each is proved to build what an independent recursive definition
  (`Grouped`) describes.
- **The in-memory managers**, each a class whose fields change in place:
  - `VariableManager`: a `Map` of named values, with identifier checks and name trimming;
  - `MemoryManager`: an accumulator and four named slots;
  - `SessionManager`: an ordered list of sessions and the current session id, with JavaScript
    truthiness deciding whether a current session exists.

  A JavaScript `Map` keeps insertion order. It is modelled as a sequence of key/value pairs with
  unique keys (`OrderedMap`).
- **The keypad state machine of the main window** (`App`). Its state is the expression, the result
  shown and whether that result comes from a finished calculation. Each handler is a method, and a
  function of the old state gives its new state.
- **The database tables** (`Database`):
  - history rows with auto-increment ids;
  - settings and memory slots as maps;
  - the migration versions.

  It also models the rule that picks which backups to delete. Whether the database is open (`db`
  not null) is a field, and every operation checks it first.

The arithmetic itself is passed in as a `Backend` of uninterpreted functions:

- the math library's `evaluate`;
- the `new Function` evaluation of bitwise text.

Each one returns the text of its value or the exception it throws. Clocks (`Date.now()`) and
directory listings are also parameters.

## Model

| member | source | states |
|---|---|---|
| Text.Trim | src/engine/CalculationEngine.ts:47 | `trim()`: no JavaScript white space is left at either end; the result is empty exactly when the input is all white space; text that is already trimmed comes back unchanged |
| Text.TrimStart | src/engine/CalculationEngine.ts:47 | drops exactly the leading run of JavaScript white space: the result is a suffix of the input and does not start with white space |
| Text.TrimEnd | src/engine/CalculationEngine.ts:47 | drops exactly the trailing run of JavaScript white space: the result is a prefix of the input and does not end with white space |
| Text.ParseToRadix | src/engine/CalculationEngine.ts:82-100 | reading `n.toString(radix)` back with `parseInt(…, radix)` gives `n`, for radix 2, 8, 10 and 16 |
| Text.ParseRadixUpper | src/engine/CalculationEngine.ts:210 | `toUpperCase()` keeps every hex digit a digit of its radix and does not change the value `parseInt` reads |
| Text.ToRadix | src/engine/CalculationEngine.ts:209-219 | `n.toString(radix)`: at least one character, every one a lower-case digit of the radix |
| Text.AsciiUpper | src/engine/CalculationEngine.ts:210 | `toUpperCase()` on this alphabet: the same length, `a`–`z` raised by 32 and every other character kept |
| Text.IntString | src/engine/CalculationEngine.ts:125 | `toString()` of an integer starts with `-` exactly when the integer is negative, and is the plain decimal text otherwise |
| Text.WithoutCount | src/utils/NumberFormatter.ts:102 | removing every copy of a character shortens the text by the number of copies |
| Text.Without | src/utils/NumberFormatter.ts:102 | `replace(/,/g, '')` with the character removed: it no longer occurs |
| Text.ReverseInvolution | src/utils/NumberFormatter.ts:63-73 | reversing twice gives the text back (the grouping loops reverse before and after) |
| OrderedMap.Put | src/engine/VariableManager.ts:33 | `Map.set`: the key then reads the new value and every other key reads what it did; re-setting a present key keeps the key order, and a new key is appended at the end; keys stay unique |
| OrderedMap.Get | src/engine/VariableManager.ts:41 | `Map.get`: a value exactly when the key is present, and it is the value of that key's entry |
| OrderedMap.Remove | src/engine/VariableManager.ts:65 | `Map.delete`: exactly the entries with other keys remain, in their order, and they read as before |
| OrderedMap.RemoveCount | src/engine/VariableManager.ts:64-66 | after a delete the key is absent and keys stay unique; the size drops by one exactly when the key was present |
| Wrappers.OrNull | src/engine/VariableManager.ts:41 | `x \|\| null` on a string: null exactly when there is no value or the value is `''`, else the value |
| Wrappers.OrElse | src/engine/MemoryManager.ts:51 | `x \|\| fallback` on a string: the value when present and non-empty, else the fallback |
| NumberFormatter.Grouped | src/utils/NumberFormatter.ts:61-96 | the independent definition the two loops are proved to build; its shape is stated by `RightGroupsPositions`, `IndianShape` and `GroupedUnformat` |
| NumberFormatter.FormatInternational | src/utils/NumberFormatter.ts:61-74 | the reverse/push loop builds `Grouped(International, s)`: a comma before every group of three digits counted from the right |
| NumberFormatter.FormatIndian | src/utils/NumberFormatter.ts:80-96 | the loop builds `Grouped(Indian, s)`: text of three or fewer characters unchanged; otherwise a last group of three and groups of two before it |
| NumberFormatter.ParseFloatIsNaN | src/utils/NumberFormatter.ts:22-25 | `isNaN(parseFloat(value))` read on the text: after leading white space and a sign, neither `Infinity`, a digit, nor `.` and a digit |
| NumberFormatter.Formatted | src/utils/NumberFormatter.ts:10-55 | what `format` returns; stated by `FormatPassThrough`, `FormatDecimal` and `UnformatFormat` |
| NumberFormatter.GroupedNumeral | src/utils/NumberFormatter.ts:28-50 | the sign, grouped integer part and fraction `format` builds after its early returns; stated by `FormatDecimal` |
| NumberFormatter.Format | src/utils/NumberFormatter.ts:10-55 | `format` with its early returns (empty, `0`, `Error`, `e`/`E`, not a number), then sign, grouped integer part and the text between the first and second `.` |
| NumberFormatter.Unformat | src/utils/NumberFormatter.ts:101-103 | no comma remains, and the length drops by the number of commas |
| NumberFormatter.UnformatKeeps | src/utils/NumberFormatter.ts:101-103 | `unformat` only deletes: its result is a subsequence of the input, and comma-free text is unchanged |
| NumberFormatter.FormatPassThrough | src/utils/NumberFormatter.ts:11-18 | the empty string, `0`, anything containing `Error` and anything containing `e` or `E` come back unchanged |
| NumberFormatter.NotPassedThrough | src/utils/NumberFormatter.ts:11-25 | a well-formed numeral other than `0` passes every early return, including the `isNaN(parseFloat(…))` test |
| NumberFormatter.FormatDecimal | src/utils/NumberFormatter.ts:28-50 | on a well-formed numeral, the `-` stays in front, the digits are grouped and the fraction from the `.` on is copied unchanged |
| NumberFormatter.GroupedStartsWithDigit | src/utils/NumberFormatter.ts:45-46 | grouping starts with the first digit, so the `-` put back in front is never followed by a comma |
| NumberFormatter.GroupedUnformat | src/utils/NumberFormatter.ts:61-96 | removing the commas from a grouped digit string gives the digits back, in both formats |
| NumberFormatter.UnformatFormat | src/utils/NumberFormatter.ts:10-55 | round trip: `unformat(format(v, f)) == v` for every well-formed comma-free numeral and both formats |
| NumberFormatter.InternationalCommaCount | src/utils/NumberFormatter.ts:61-74 | an n-digit integer part gets (n-1) div 3 commas and grows by exactly that many characters |
| NumberFormatter.RightGroupsPositions | src/utils/NumberFormatter.ts:66-71 | in groups of g (3, or 2 for the Indian head) a comma stands exactly at the positions followed by a multiple of g digits, so each comma is followed by g digits and the leading group has 1 to g |
| NumberFormatter.IndianShape | src/utils/NumberFormatter.ts:80-96 | Indian grouping: three or fewer digits unchanged; else a comma, then the last three digits; before that, commas only before each pair and a leading group of one or two |
| NumberFormatter.InfinityGrouped | src/utils/NumberFormatter.ts:10-55 | as written, `Infinity` and `-Infinity` pass every early return and come out as `In,fin,ity` and `-In,fin,ity` |
| NumberFormatter.FormattedChecked | src/utils/NumberFormatter.ts:10-55 | `format` as evidently intended: only a digit integer part is grouped; stated by `FormattedCheckedKeepsInfinity` and `FormattedCheckedAgrees` |
| NumberFormatter.FormattedCheckedKeepsInfinity | src/utils/NumberFormatter.ts:10-55 | the corrected `format`, which groups only digits, hands `Infinity` and `-Infinity` back unchanged |
| NumberFormatter.FormattedCheckedAgrees | src/utils/NumberFormatter.ts:10-55 | on every well-formed numeral the corrected `format` agrees with the original, so the round trip with `unformat` still holds |
| CalculationEngine.Substitute | src/engine/CalculationEngine.ts:50 | a global `replace` of one character by a text: when the text does not hold the character, none is left |
| CalculationEngine.Normalize | src/engine/CalculationEngine.ts:47-50 | trim, then `×` to `*` and `÷` to `/`; stated by `NormalizeTrimmed` |
| CalculationEngine.InsertTimes | src/engine/CalculationEngine.ts:55-57 | one implicit-`*` pass: never shorter, and the first and last characters stay in place; the separation it makes is stated by `InsertTimesSeparates` |
| CalculationEngine.ImplicitTimes | src/engine/CalculationEngine.ts:55-57 | the three implicit-`*` passes in source order; stated by `ImplicitTimesSeparates` |
| CalculationEngine.ReplaceConstants | src/engine/CalculationEngine.ts:60-61 | every `π` becomes `pi` and every Cyrillic `е` becomes `e`, so neither is left |
| CalculationEngine.Preprocess | src/engine/CalculationEngine.ts:46-65 | `preprocessExpression` in a mode; stated by `PreprocessTrimmed` and `ProgrammerPreprocess` |
| CalculationEngine.SubstituteChar | src/engine/CalculationEngine.ts:50 | `replace(/×/g, '*')` and the like change exactly the matching characters and keep the length |
| CalculationEngine.PreprocessTrimmed | src/engine/CalculationEngine.ts:46-65 | in every mode the preprocessed text is trimmed, holds no `×` or `÷`, and is empty exactly when the trimmed input is |
| CalculationEngine.ProgrammerPreprocess | src/engine/CalculationEngine.ts:47-62 | in programmer mode preprocessing only trims and rewrites `×` and `÷`: the same length, no `*` inserted, `π` kept |
| CalculationEngine.ImplicitTimesSeparates | src/engine/CalculationEngine.ts:55-57 | after the three passes no digit is directly followed by an ASCII letter, no `)` by a digit and no digit by `(`, and only `*` was added |
| CalculationEngine.NormalizeTrimmed | src/engine/CalculationEngine.ts:47-50 | after trimming and rewriting `×` and `÷`: trimmed, neither symbol left, and empty exactly when the trimmed input is |
| CalculationEngine.InsertTimesSeparates | src/engine/CalculationEngine.ts:55 | one pass leaves no `a`-`b` pair adjacent when the classes are disjoint and exclude `*` |
| CalculationEngine.InsertTimesKeeps | src/engine/CalculationEngine.ts:55-57 | a later pass never recreates a pair an earlier pass separated |
| CalculationEngine.InsertTimesSubsequence | src/engine/CalculationEngine.ts:55-57 | a pass only inserts: the input is a subsequence of the output |
| CalculationEngine.InsertTimesOnlyStars | src/engine/CalculationEngine.ts:55-57 | a pass inserts nothing but `*`: removing the stars from both gives the same text |
| CalculationEngine.PiAfterDigit | src/engine/CalculationEngine.ts:54-61 | `2π` becomes `2pi`, not `2*π`: `π` is no ASCII letter when the passes run, and it is rewritten after them |
| CalculationEngine.HexLetters | src/engine/CalculationEngine.ts:75-79 | `\b[A-F]\b` to its decimal value: empty exactly when the input is, and the first and last characters stay word characters exactly when they were, so the word boundaries around the text are unchanged |
| CalculationEngine.HexLetterStandalone | src/engine/CalculationEngine.ts:73-79 | `E-B` becomes `14-11` |
| CalculationEngine.HexLetterInLiteral | src/engine/CalculationEngine.ts:75 | the `A` of `0xA` follows the word character `x`, so it is kept |
| CalculationEngine.HexLettersIdempotent | src/engine/CalculationEngine.ts:75-79 | a second standalone-letter pass changes nothing |
| CalculationEngine.HexLettersNone | src/engine/CalculationEngine.ts:75-79 | text without `A`–`F` is unchanged |
| CalculationEngine.HexLettersAfterDigits | src/engine/CalculationEngine.ts:75 | letters right after a digit are inside a word, so `12AB` keeps its letters |
| CalculationEngine.HexLettersInWord | src/engine/CalculationEngine.ts:75 | a run of word characters that follows a word character is unchanged |
| CalculationEngine.HexLetterAfterMinus | src/engine/CalculationEngine.ts:75-79 | `-B` becomes `-11`: `-` is no word character |
| CalculationEngine.HexLiteralKept | src/engine/CalculationEngine.ts:75-86 | the digits of a `0x` literal are never replaced by the letter pass, so the literal pass still sees them |
| CalculationEngine.RunLength | src/engine/CalculationEngine.ts:82-100 | the greedy `+` of the literal patterns: the longest prefix of digits of the radix |
| CalculationEngine.RadixLiterals | src/engine/CalculationEngine.ts:82-100 | one `0x`/`0b`/`0o` pass; what it makes of a literal is stated by `RadixLiteralWhole` |
| CalculationEngine.LiteralsToDecimal | src/engine/CalculationEngine.ts:73-100 | the hex-letter pass and the three literal passes in source order; stated by the round trips |
| CalculationEngine.RadixLiteralWhole | src/engine/CalculationEngine.ts:82-100 | a whole `0x`/`0b`/`0o` literal becomes the decimal text of `parseInt` of its digits |
| CalculationEngine.RadixLiteralsNoTag | src/engine/CalculationEngine.ts:82-100 | without the tag letter, a literal pass changes nothing |
| CalculationEngine.NoHexInLiteral | src/engine/CalculationEngine.ts:75-86 | a `0b` or `0o` literal of decimal digits passes the hex-letter and `0x` passes unchanged |
| CalculationEngine.NoBinaryInOctal | src/engine/CalculationEngine.ts:89-93 | a `0o` literal passes the `0b` pass unchanged |
| CalculationEngine.DecimalNoTag | src/engine/CalculationEngine.ts:82-100 | a decimal number produced by an earlier pass is never read again as a literal |
| CalculationEngine.ToHex | src/engine/CalculationEngine.ts:209-211 | `toHex` starts with `0x` |
| CalculationEngine.ToBinary | src/engine/CalculationEngine.ts:213-215 | `toBinary` starts with `0b` |
| CalculationEngine.ToOctal | src/engine/CalculationEngine.ts:217-219 | `toOctal` starts with `0o` |
| CalculationEngine.HexRoundTrip | src/engine/CalculationEngine.ts:209-211 | round trip, for every n below 2^53 (the integers a double holds exactly): all four literal passes of programmer mode turn `toHex(n)` into the decimal text of n |
| CalculationEngine.BinaryRoundTrip | src/engine/CalculationEngine.ts:213-215 | round trip, for every n below 2^53 (the integers a double holds exactly): the literal passes turn `toBinary(n)` into the decimal text of n |
| CalculationEngine.OctalRoundTrip | src/engine/CalculationEngine.ts:217-219 | round trip, for every n below 2^53 (the integers a double holds exactly): the literal passes turn `toOctal(n)` into the decimal text of n |
| CalculationEngine.ToInt32 | src/engine/CalculationEngine.ts:125 | ECMAScript ToInt32: always a signed 32-bit value |
| CalculationEngine.ToInt32Congruent | src/engine/CalculationEngine.ts:125 | the 32-bit conversion behind `~` keeps the value modulo 2^32 |
| CalculationEngine.ToInt32Small | src/engine/CalculationEngine.ts:125 | a value that fits in 32 signed bits is unchanged by it |
| CalculationEngine.BitNot | src/engine/CalculationEngine.ts:125 | `~x` is always a signed 32-bit value |
| CalculationEngine.NotLiterals | src/engine/CalculationEngine.ts:124-126 | `replace(/~(\d+)/g, …)`; stated by `NotLiteralWhole` and `NotOfSmall` |
| CalculationEngine.NotLiteralWhole | src/engine/CalculationEngine.ts:124-126 | `~` with all the digits after it is replaced, as one literal, by the text of `~parseInt(digits)` |
| CalculationEngine.NotOfSmall | src/engine/CalculationEngine.ts:124-126 | `~n` becomes the decimal text of -(n+1) for n below 2^31 |
| CalculationEngine.UsesBitwise | src/engine/CalculationEngine.ts:106-107 | the test that sends programmer text down the bitwise path: one of `& \| ^ ~`, `<<` or `>>` |
| CalculationEngine.EvaluateProgrammer | src/engine/CalculationEngine.ts:67-115 | `evaluateProgrammer`: the literal passes, then the bitwise path or the math library |
| CalculationEngine.Sanitize | src/engine/CalculationEngine.ts:130 | the sanitised text holds only digits, spaces and `& \| ^ < > ( ) - + * /`, and is a subsequence of its input |
| CalculationEngine.SanitizeKeepsPermitted | src/engine/CalculationEngine.ts:130 | text made only of permitted characters is unchanged, so sanitising twice is sanitising once |
| CalculationEngine.EvaluateBitwise | src/engine/CalculationEngine.ts:117-138 | every failure on the bitwise path reads `Invalid bitwise operation` |
| CalculationEngine.FormatError | src/engine/CalculationEngine.ts:156-167 | the message is always one of the four fixed messages |
| CalculationEngine.FormatErrorCases | src/engine/CalculationEngine.ts:156-167 | each message is chosen exactly when its substring is the first found, in the order `Undefined symbol`, `division by zero`, `Unexpected`, with `Invalid expression` otherwise |
| CalculationEngine.Evaluated | src/engine/CalculationEngine.ts:22-44 | `evaluate` in a mode; what it throws is stated by `EvaluateErrors` |
| CalculationEngine.EvaluateErrors | src/engine/CalculationEngine.ts:22-44 | whatever `evaluate` throws is an `Error` with one of the four messages; outside programmer mode it is the math library's outcome with its message mapped; a failure on the bitwise path reads `Invalid expression` |
| CalculationEngine.BitwiseMessage | src/engine/CalculationEngine.ts:135-137 | `Invalid bitwise operation` contains none of the three substrings, so it is reported as `Invalid expression` |
| CalculationEngine.Factorial | src/engine/CalculationEngine.ts:202-206 | throws `Factorial of negative number` exactly for negative n; otherwise at least 1 and at least n |
| CalculationEngine.FactorialIsProduct | src/engine/CalculationEngine.ts:202-206 | `factorial(n)` is the product 1 · 2 · … · n, defined independently |
| CalculationEngine.Engine.constructor | src/engine/CalculationEngine.ts:5 | a new engine is in standard mode |
| CalculationEngine.Engine.SetMode | src/engine/CalculationEngine.ts:14-16 | the mode becomes the one given |
| CalculationEngine.Engine.GetMode | src/engine/CalculationEngine.ts:18-20 | the name of the mode: `standard`, `scientific` or `programmer` |
| CalculationEngine.Engine.Evaluate | src/engine/CalculationEngine.ts:22-44 | `evaluate` in the engine's mode; whatever it throws carries one of the four messages |
| Variables.IsValidVariableName | src/engine/VariableManager.ts:16-21 | `/^[a-zA-Z_][a-zA-Z0-9_]*$/`; what it admits is stated by `ValidNameShape` |
| Variables.ValidNameShape | src/engine/VariableManager.ts:16-21 | a valid name does not start with a digit, holds no white space and is its own trimmed form |
| Variables.InvalidNameMessage | src/engine/VariableManager.ts:30 | the error text is `Invalid variable name: ` followed by the name as given, untrimmed |
| Variables.Loaded | src/engine/VariableManager.ts:78-83 | the map `loadVariables` builds has unique keys |
| Variables.LastValue | src/engine/VariableManager.ts:80-82 | the value of the last pair with a name, or none when no pair has it |
| Variables.LoadedGet | src/engine/VariableManager.ts:78-83 | after loading, each name reads the value of its last pair: later duplicates win, and names are neither trimmed nor checked |
| Variables.VariableManager.constructor | src/engine/VariableManager.ts:7-11 | a new manager holds no variables |
| Variables.VariableManager.SetVariable | src/engine/VariableManager.ts:26-35 | succeeds with `true` exactly when the trimmed name is an identifier, and stores the value under the trimmed name; otherwise throws `Invalid variable name: <name>` and changes nothing |
| Variables.VariableManager.GetVariable | src/engine/VariableManager.ts:40-42 | a value exactly when the trimmed name is present with a non-empty value (`\|\| null` reads `''` as null), and it is that entry's value |
| Variables.VariableManager.GetAllVariables | src/engine/VariableManager.ts:47-52 | every entry in insertion order as `{ name, value }` |
| Variables.VariableManager.HasVariable | src/engine/VariableManager.ts:57-59 | true exactly when some entry has the trimmed name |
| Variables.VariableManager.DeleteVariable | src/engine/VariableManager.ts:64-66 | returns whether the trimmed name was present, removes only that entry, and the count drops by one exactly then |
| Variables.VariableManager.ClearAll | src/engine/VariableManager.ts:71-73 | no variables remain |
| Variables.VariableManager.LoadVariables | src/engine/VariableManager.ts:78-83 | the `forEach` loop replaces the contents: each name reads the value of its last pair |
| Variables.VariableManager.GetCount | src/engine/VariableManager.ts:88-90 | the number of entries |
| Variables.SetThenGet | src/engine/VariableManager.ts:26-42 | after a successful set the name is present and reads back the value, except that `''` reads back as null |
| Variables.PaddedNameExample | src/engine/VariableManager.ts:40-66 | ` x ` and `x` address the same entry |
| Variables.ResetKeepsPlace | src/engine/VariableManager.ts:33 | re-setting a present name keeps the count and the entry's position |
| Memory.InitialSlotsShape | src/engine/MemoryManager.ts:9-14 | the initial slots are exactly `M1`–`M4`, each recalling `0` |
| Memory.InitialSlotGet | src/engine/MemoryManager.ts:9-14 | `M1`–`M4` hold `0` and no other slot exists |
| Memory.SlotValue | src/engine/MemoryManager.ts:50-52 | `get(slot) \|\| '0'`: the stored value when present and non-empty, else `0` |
| Memory.MemoryManager.constructor | src/engine/MemoryManager.ts:2-7 | the accumulator is `0` and the slots are the initial four |
| Memory.MemoryManager.InitializeSlots | src/engine/MemoryManager.ts:9-14 | `M1`–`M4` set to `0`, in that order, accumulator untouched |
| Memory.MemoryManager.MemoryAdd | src/engine/MemoryManager.ts:17-21 | the accumulator becomes the sum the caller's arithmetic gives; the slots are untouched |
| Memory.MemoryManager.MemorySubtract | src/engine/MemoryManager.ts:24-28 | the accumulator becomes the difference; the slots are untouched |
| Memory.MemoryManager.MemoryRecall | src/engine/MemoryManager.ts:31-33 | the accumulator, verbatim |
| Memory.MemoryManager.MemoryClear | src/engine/MemoryManager.ts:36-38 | the accumulator becomes `0`; the slots are untouched |
| Memory.MemoryManager.MemoryStore | src/engine/MemoryManager.ts:41-43 | the accumulator becomes the value, verbatim; the slots are untouched |
| Memory.MemoryManager.StoreInSlot | src/engine/MemoryManager.ts:46-48 | the slot is set (or created at the end); the accumulator is untouched |
| Memory.MemoryManager.RecallFromSlot | src/engine/MemoryManager.ts:50-52 | `0` for an unknown slot or one holding `''`, else the stored value |
| Memory.MemoryManager.ClearSlot | src/engine/MemoryManager.ts:54-56 | the slot is set to `0`, created if absent; the accumulator is untouched |
| Memory.MemoryManager.GetAllSlots | src/engine/MemoryManager.ts:58-60 | a copy equal to the slot map |
| Memory.MemoryManager.HasMemory | src/engine/MemoryManager.ts:62-64 | a string test against `0`, so `0.0` and `-0` count as memory |
| Memory.StoreThenRecall | src/engine/MemoryManager.ts:46-52 | after a store the slot recalls the value (`0` for `''`) and every other slot recalls what it did |
| Memory.ClearThenRecall | src/engine/MemoryManager.ts:50-56 | after a clear the slot exists and recalls `0` |
| Sessions.IsFalsy | src/engine/SessionManager.ts:82 | `!id`: null and `0` are falsy; every other id, negative ones too, is truthy |
| Sessions.Merge | src/engine/SessionManager.ts:54 | `{ ...session, ...updates }`: each field the patch holds replaces the session's |
| Sessions.FindIndex | src/engine/SessionManager.ts:52 | `findIndex`: the first index whose session satisfies the test, or -1 when none does |
| Sessions.FirstWithId | src/engine/SessionManager.ts:75 | the first session with the id, or none exactly when no session has it |
| Sessions.FirstDefault | src/engine/SessionManager.ts:36 | the first session with `is_default === 1`, or none exactly when there is none |
| Sessions.FallbackId | src/engine/SessionManager.ts:36-37 | `find(s => s.is_default === 1)?.id ?? sessions[0].id`; which session it names is stated by `FallbackIdChoice` and `FallbackFound` |
| Sessions.FallbackIdChoice | src/engine/SessionManager.ts:36-37 | the fallback id is the first default session's id when it has one, else the first session's; it is missing only when both are |
| Sessions.FallbackFound | src/engine/SessionManager.ts:35-37 | with distinct truthy ids, the fallback is truthy and names the first default session, or else the first session |
| Sessions.WithoutId | src/engine/SessionManager.ts:62 | `filter`: every session with the id removed; every other session kept, in order, with as many copies as before |
| Sessions.Updated | src/engine/SessionManager.ts:51-56 | only the first session with the id is merged with the patch; no match leaves the list as it was |
| Sessions.RemovedNotFound | src/engine/SessionManager.ts:61-76 | after a removal no session has the id, and every other session is still there |
| Sessions.SessionManager.constructor | src/engine/SessionManager.ts:4-5 | no current session, no sessions |
| Sessions.SessionManager.GetCurrentSessionId | src/engine/SessionManager.ts:10-12 | the current id |
| Sessions.SessionManager.SetCurrentSessionId | src/engine/SessionManager.ts:17-19 | the current id becomes the one given, even if no session has it |
| Sessions.SessionManager.GetSessions | src/engine/SessionManager.ts:24-26 | the list |
| Sessions.SessionManager.LoadSessions | src/engine/SessionManager.ts:31-39 | the list is replaced; a falsy current id with a non-empty list falls back to the default or the first session; a truthy one is kept even if absent |
| Sessions.SessionManager.AddSession | src/engine/SessionManager.ts:44-46 | appended at the end, no duplicate check |
| Sessions.SessionManager.UpdateSession | src/engine/SessionManager.ts:51-56 | the list becomes `Updated`; the current id is untouched |
| Sessions.SessionManager.RemoveSession | src/engine/SessionManager.ts:61-69 | every session with the id removed; if it was current and sessions remain, the current id falls back; if none remain it is left dangling |
| Sessions.SessionManager.GetSessionById | src/engine/SessionManager.ts:74-76 | the first session with the id, or null |
| Sessions.SessionManager.GetCurrentSession | src/engine/SessionManager.ts:81-84 | null whenever the current id is falsy, else the first session with it |
| App.Calculator.constructor | src/App.tsx:11-21 | expression `''`, result `0`, not finished, standard mode |
| App.Calculator.HandleInput | src/App.tsx:92-106 | the new state is `AfterInput` of the old |
| App.Calculator.HandleExpressionChange | src/App.tsx:108-111 | the expression is replaced and the finished flag cleared; the result is kept |
| App.Calculator.HandleClear | src/App.tsx:113-117 | expression `''`, result `0`, not finished |
| App.Calculator.HandleBackspace | src/App.tsx:119-134 | the new state is `AfterBackspace` of the old (one character is one Unicode scalar value; see "## Left out") |
| App.Calculator.HandleCalculate | src/App.tsx:136-161 | nothing on a blank expression; otherwise the engine runs in the window's mode, the result or the caught error's message is shown, the calculation is finished, and a history row goes to the database exactly when evaluation succeeded; the engine is left in the window's mode, and untouched on a blank expression |
| App.Calculator.Run | src/App.tsx:49-50 | `engine.setMode(mode)` then `engine.evaluate(expression)`: the outcome is `evaluate` in the window's mode |
| App.Calculator.Show | src/App.tsx:139-160 | the value or the caught message is shown, the calculation is finished, and a row is produced exactly for a value |
| App.Calculator.AutoClear | src/App.tsx:35-39 | an empty expression forces the result to `0` |
| App.Calculator.LiveEvaluate | src/App.tsx:42-56 | the new state is `AfterLiveEvaluate`: a value is shown only when the guard holds, and an error is swallowed; the engine is left in the window's mode when the guard holds, and untouched otherwise |
| App.Calculator.Adopt | src/App.tsx:51-55 | a value becomes the result; an error changes nothing |
| App.Calculator.HandleModeChange | src/App.tsx:163-169 | the window's mode and the engine's become the new mode; the keypad state is untouched |
| App.Calculator.HandleHistoryClick | src/App.tsx:185-190 | the entry's expression, result and mode come back, not finished |
| App.Calculator.HandleMemoryRecall | src/App.tsx:200-208 | the accumulator replaces a finished expression, else is appended; the flag is cleared |
| App.Calculator.HandleMemoryStore | src/App.tsx:214-216 | the shown result goes into the accumulator; the slots are untouched |
| App.Calculator.HandlePaste | src/App.tsx:218-225 | the text replaces a finished expression, else is appended; the flag is cleared |
| App.AfterInput | src/App.tsx:92-106 | the state `handleInput` leaves; stated by `InputContinues` |
| App.AfterBackspace | src/App.tsx:119-134 | the state `handleBackspace` leaves; stated by `BackspaceShortens`, `BackspaceUndoesInput` and `EmptyShowsZero` |
| App.AfterInsert | src/App.tsx:218-225 | the state `handlePaste` and `handleMemoryRecall` leave: the text replaces a finished expression, else is appended |
| App.AfterAutoClear | src/App.tsx:35-39 | the state the auto-clear effect leaves; stated by `EmptyShowsZero` |
| App.AfterCalculate | src/App.tsx:136-161 | the state `handleCalculate` leaves; stated by `CalculateFinishes` |
| App.ShouldLiveEvaluate | src/App.tsx:43-48 | the live-evaluation guard: non-blank, unfinished, ending with a digit or `)` |
| App.AfterLiveEvaluate | src/App.tsx:42-56 | the state the live-evaluation effect leaves; stated by `LiveEvaluationGuard` |
| App.InputContinues | src/App.tsx:92-106 | after input the calculation is never finished; a finished one continues from the result on `+ - * /` and restarts from the key otherwise; an unfinished one appends the key |
| App.BackspaceUndoesInput | src/App.tsx:92-134 | while unfinished, backspace after typing one character restores the expression |
| App.BackspaceShortens | src/App.tsx:119-134 | backspace on a finished calculation is clear; otherwise it drops exactly one trailing Unicode scalar value (nothing on `''`) |
| App.EmptyShowsZero | src/App.tsx:35-39 | clear, a backspace that empties the expression, and the auto-clear effect all leave the result `0` on an empty expression |
| App.CalculateFinishes | src/App.tsx:136-161 | a blank expression changes nothing; otherwise the calculation is finished with the expression kept, and a failure shows one of the four engine messages |
| App.LiveEvaluationGuard | src/App.tsx:43-48 | live evaluation never touches the expression or the flag, and does nothing after an operator or `(` |
| Database.InsertOrIgnoreAll | electron/main/database/DatabaseManager.ts:138-152 | the settings after `INSERT OR IGNORE` of each pair in turn; stated by `InsertOrIgnoreKeeps`, `InsertOrIgnoreIdempotent` and `InsertOrIgnorePresent` |
| Database.InsertOrIgnoreKeeps | electron/main/database/DatabaseManager.ts:138-152 | `INSERT OR IGNORE` of the defaults never overwrites a present value; afterwards each default key is present, with its default value where it was missing |
| Database.InsertOrIgnoreIdempotent | electron/main/database/DatabaseManager.ts:138-152 | inserting the defaults twice is inserting them once |
| Database.InsertOrIgnorePresent | electron/main/database/DatabaseManager.ts:138-152 | when every key is present, nothing changes |
| Database.MaxVersion | electron/main/database/DatabaseManager.ts:157-158 | `MAX(version)`: none exactly for an empty table, otherwise a recorded version no smaller than any other |
| Database.CurrentVersion | electron/main/database/DatabaseManager.ts:157-158 | `MAX(version) \|\| 0` |
| Database.Migrated | electron/main/database/DatabaseManager.ts:154-165 | the versions after `runMigrations`; stated by `MigratedProperties` |
| Database.MigratedProperties | electron/main/database/DatabaseManager.ts:154-165 | afterwards the current version is at least 1 and nothing recorded is lost; a table already at version 1 is unchanged, so migrating twice is migrating once |
| Database.HistoryPage | electron/main/database/DatabaseManager.ts:220-241 | at most `limit` rows, newest first, all from the table |
| Database.TogglePinned | electron/main/database/DatabaseManager.ts:268-278 | only rows with the id change: a flag of 1 becomes 0 and any other becomes 1 |
| Database.TogglePinTwice | electron/main/database/DatabaseManager.ts:268-278 | two toggles restore rows whose flags are 0 or 1, and a toggled flag is 0 or 1 |
| Database.DeleteRows | electron/main/database/DatabaseManager.ts:280-284 | exactly the rows with another id remain |
| Database.DeleteKeepsIds | electron/main/database/DatabaseManager.ts:280-284 | deleting rows keeps the remaining ids distinct |
| Database.Backups | electron/main/database/DatabaseManager.ts:189-190 | exactly the files named `calculator-*.db` |
| Database.BackupsToDelete | electron/main/database/DatabaseManager.ts:187-204 | the backups `cleanOldBackups` unlinks; stated by `BackupRetention` |
| Database.BackupRetention | electron/main/database/DatabaseManager.ts:187-204 | only backups are deleted, all but the seven newest by mtime, and no kept backup is older than a deleted one |
| Ordering.SortDesc | electron/main/database/DatabaseManager.ts:225 | `ORDER BY … DESC`: a permutation of the rows with keys never increasing |
| Ordering.Insert | electron/main/database/DatabaseManager.ts:225 | one row inserted into a descending list: one row longer, a permutation of the list and the row, still descending |
| Ordering.Page | electron/main/database/DatabaseManager.ts:226 | `LIMIT ? OFFSET ?`: the rows from position `offset` on, at most `limit` of them |
| Ordering.PageOfSorted | electron/main/database/DatabaseManager.ts:223-227 | a page of a sorted list is sorted and comes from the list |
| Database.DatabaseManager.constructor | electron/main/database/DatabaseManager.ts:29 | no database yet, empty tables |
| Database.DatabaseManager.Initialize | electron/main/database/DatabaseManager.ts:41-84 | the database is open, the default settings are inserted if missing and the migrations run; history and memory are kept |
| Database.DatabaseManager.InitializeDefaultSettings | electron/main/database/DatabaseManager.ts:138-152 | the loop's `INSERT OR IGNORE` of each default in turn; nothing without a database |
| Database.DatabaseManager.RunMigrations | electron/main/database/DatabaseManager.ts:154-165 | version 1 is recorded only when the maximum recorded version (0 for none) is below it; nothing without a database |
| Database.DatabaseManager.AddHistory | electron/main/database/DatabaseManager.ts:206-218 | throws `Database not initialized` without a database; otherwise appends the row with a fresh id larger than every earlier one and returns that id |
| Database.DatabaseManager.GetHistory | electron/main/database/DatabaseManager.ts:220-241 | the page of rows newest first; `[]` without a database |
| Database.DatabaseManager.TogglePin | electron/main/database/DatabaseManager.ts:268-278 | the rows with the id are toggled; nothing without a database |
| Database.DatabaseManager.DeleteHistory | electron/main/database/DatabaseManager.ts:280-284 | the rows with the id are removed, ids stay unique; nothing without a database |
| Database.DatabaseManager.ClearAllHistory | electron/main/database/DatabaseManager.ts:286-290 | history is empty; ids are not reused |
| Database.DatabaseManager.GetSetting | electron/main/database/DatabaseManager.ts:292-299 | the stored value, or null without a database or for an absent key |
| Database.DatabaseManager.SetSetting | electron/main/database/DatabaseManager.ts:301-310 | `INSERT OR REPLACE`: the key reads the value and other keys are unchanged |
| Database.DatabaseManager.GetAllSettings | electron/main/database/DatabaseManager.ts:312-324 | every setting; `{}` without a database |
| Database.DatabaseManager.SetMemory | electron/main/database/DatabaseManager.ts:326-335 | `INSERT OR REPLACE` of the slot |
| Database.DatabaseManager.GetMemory | electron/main/database/DatabaseManager.ts:337-344 | the stored value, or null without a database or for an absent slot |
| Database.DatabaseManager.ClearMemory | electron/main/database/DatabaseManager.ts:346-350 | the slot's row is deleted |
| Database.DatabaseManager.GetAllMemory | electron/main/database/DatabaseManager.ts:352-368 | one row per slot with its value; `[]` without a database |
| Database.DatabaseManager.Close | electron/main/database/DatabaseManager.ts:370-376 | later calls see no database; the tables are kept as saved |
| Database.DatabaseManager.CleanOldBackups | electron/main/database/DatabaseManager.ts:187-204 | the loop unlinks exactly the backups `BackupsToDelete` selects (all but the seven newest by mtime), in that order |

## Left out

- The math library's `evaluate` (with its BigNumber precision) and the `new Function` evaluation of the sanitised bitwise text: both are uninterpreted functions of `Backend`. `formatResult` and its floating-point `toExponential` are folded into them, since each returns the text of its value.
- The scientific helpers `sin`, `cos`, `tan`, `log`, `ln`, `sqrt`, `square` and `power`, and the one-line bitwise helpers `bitwiseAnd` … `rightShift`: each is one floating-point or 32-bit operator, and none is called by the modelled code.
- CalculationEngine.Factorial: modelled on integers with the exact product. The source multiplies doubles, so from 23! on its result is rounded and from 171! on it is `Infinity`. For a finite non-integer argument the source counts down until the argument is negative and then throws `Factorial of negative number` (`factorial(2.5)` throws at `-0.5`). `NaN` and `Infinity` recurse until the stack overflows. None of these cases is modelled.
- CalculationEngine.FactorialIsProduct: the exact n! equals what the source returns only up to 22!; above that the source's product of doubles is rounded.
- CalculationEngine.RadixLiterals: a `0x`, `0b` or `0o` literal is read and printed exactly. In the source `parseInt(…).toString()` goes through a double: from 2^53 on the value is rounded (`0x20000000000001` prints `9007199254740992`), and from 10^21 on it prints in exponent form. CalculationEngine.RadixLiteralWhole and CalculationEngine.LiteralsToDecimal inherit this; the round-trip lemmas are stated only below 2^53.
- CalculationEngine.NotLiterals: `parseInt` is read exactly. For digit strings of 2^53 and above the source rounds to a double before `~` applies.
- CalculationEngine.ToHex: modelled for integer arguments only. CalculationEngine.ToBinary and CalculationEngine.ToOctal likewise. For a fraction `toString(radix)` prints digits after a point (`toBinary(2.5)` is `0b10.1`, `toOctal(0.5)` is `0o0.4`), and `NaN` and `Infinity` print as their names (`toBinary(NaN)` is `0bNaN`; `toHex` upper-cases them to `0xNAN` and `0xINFINITY`). None of these is modelled.
- Memory.MemoryManager.MemoryAdd: the `parseFloat` arithmetic and the printing of the float are a parameter (`sum`). The model keeps what the method changes and what it leaves alone. Memory.MemoryManager.MemorySubtract likewise.
- NumberFormatter.Format: `isNaN(parseFloat(…))` is modelled as a test on the text: after leading white space and an optional sign, neither `Infinity` nor a digit nor `.` followed by a digit. The numeric value itself is never needed.
- App.Calculator.HandleCalculate: the history row is returned rather than sent. The presence of the Electron bridge, the reload of the history list, and the case where `addHistory` rejects and its message is shown are not modelled.
- App.Calculator.LiveEvaluate: React runs the effect after a render in which `expression`, `mode` or `isNewCalculation` changed. The model gives the effect as a method the caller invokes.
- App.AfterBackspace: text is a sequence of Unicode scalar values, while `prev.slice(0, -1)` drops one UTF-16 code unit. For a character outside the Basic Multilingual Plane (an emoji pasted in) the source leaves half a surrogate pair, and the model drops the whole character. App.Calculator.HandleBackspace, App.BackspaceShortens and App.BackspaceUndoesInput state the model's behaviour, which matches the source only when the last character is in the Basic Multilingual Plane.
- Default arguments (`format = 'international'` of `NumberFormatter.format`, `limit = 100, offset = 0` of `getHistory`) are not modelled: the model's members take every argument explicitly. The `console.log` tracing in `evaluateProgrammer` is output only. `handleModeChange` also stores the mode with `setSetting('calculationMode', …)` through the Electron bridge, which is not modelled.
- `loadSettings`, `loadHistory`, the theme, the scattered keypad, the keyboard shortcuts, the clipboard, and the memory add, subtract and clear buttons of the window are user-interface wiring around the modelled managers.
- Sessions.SessionManager.LoadSessions: the list is stored by value. In the source the caller's array is shared (aliased), so a later `push` would show through it.
- Sessions.Merge: a patch can set `name` or `is_default` to `undefined`; only the id may be `undefined` in the model.
- Database.DatabaseManager.Initialize: loading sql.js and its WASM file, reading and writing the database file, `saveDatabase`, and the date-stamped copy in `createBackup` are file I/O. The tables are taken to be the ones saved last.
- `searchHistory`: its SQL `LIKE` matching, with ASCII case folding and unescaped `%` and `_`, is not part of this model.
- Database.DatabaseManager.GetHistory: `limit` and `offset` are natural numbers. SQLite's meaning of a negative `LIMIT` (no limit) is not modelled.
- Database.HistoryPage: rows with equal timestamps keep their insertion order. SQLite leaves that order unspecified.
- Database.DatabaseManager.GetAllSettings: settings and memory are maps, so the row order of `getAllSettings` and `getAllMemory` (`ORDER BY created_at DESC`) is not modelled. Neither are the `created_at` and `updated_at` columns.
- Database.DatabaseManager.AddHistory: `is_pinned \|\| 0` is the identity on integers, and a NaN flag does not arise. The returned id assumes that the connection's `last_insert_rowid()` survives `saveDatabase`. In sql.js, `export()` closes and reopens the connection. If it does so here, the source's query after saving reads 0, and `addHistory` returns `0`, not the new id.
- The `dist-electron-old*` build output, the IPC handlers, the preload script and the Electron main process are not part of this model.

## Findings

| source | as written | input that shows it | evidently intended | confidence | as-written member | corrected member |
|---|---|---|---|---|---|---|
| src/utils/NumberFormatter.ts:10-55 | `format` groups any text `parseFloat` reads as a number and that holds no `e`/`E`; `Infinity` has neither, so its letters are grouped | `format('Infinity')` gives `In,fin,ity`; `format('-Infinity')` gives `-In,fin,ity` | only digit strings are grouped; `Infinity` comes back unchanged, like the other non-numeric results | not executed | NumberFormatter.InfinityGrouped | NumberFormatter.FormattedChecked (FormattedCheckedKeepsInfinity, FormattedCheckedAgrees) |
