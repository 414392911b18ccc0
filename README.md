# ColorQL in Dafny

ColorQL (`colorql.ts`) is a small symbolic binding engine. Clients bind values
and functions to color codes such as `#0a1b2c`, reserve whole R channels for
*parameter functions*, and run programs written as arrays of color codes.

- **Color codec.** `Codec.Decode` parses a code, `#` and six hex digits,
  into three 8-bit channels. That is what `hexToRgb` is meant to do; as
  written it reads every `#` code as (0, 0, 0) (see "## Findings").
  `rgbToHex` prints three channels as `#` and six lower-case hex digits.
  Module `Codec`, file `codec.dfy`.
- **Binding registry.** `colorBindings` maps codes to bindings. `rValues`
  lists the reserved R channels. The operations are `checkRValue`,
  `bindValue`, `bindFn`, `getBinding` and `removeBinding`.
  - `Registry.State` gives each operation as a pure transition
    (`registry.dfy`).
  - The class `Engines.Engine` (`engine.dfy`) updates both fields in place.
    Its five state-changing methods, `BindValue`, `BindFn`, `RemoveBinding`,
    `CreateParamFn` and `RemoveParamFn`, are each proved to perform the
    transition of the same name. `CheckRValue` and `GetBinding` change
    nothing, and their contracts state their results. The loop methods
    `WriteBand` and `DeleteBand` are proved against `Registry.Band` and
    `Registry.BandKeys`, and `ReadColors` against `Interpreter.Run`.
- **Parameter-function expander.** `createParamFn(r, fn)` writes an adapter
  calling `fn(g, b)` at every code `rgbToHex(r, g, b)`, in two nested
  256-step loops. `removeParamFn(r)` deletes them again and releases `r`.
  - The pure model of the band is `Registry.Band` and `Registry.BandKeys`.
  - The nested loops are `Engine.WriteBand` and `Engine.DeleteBand`. `Engine.CreateParamFn` and `Engine.RemoveParamFn` call them.
- **Statement interpreter.** In `readColors`, `#FFFFFF` opens a statement
  and `#000000` closes it. The codes in between are looked up, and the first
  value found is called with the rest as its arguments.
  - `Interpreter.Step`, `Interpreter.ScanFrom` and `Interpreter.Run` give this
    as a pure scan (`interpreter.dfy`).
  - `Engine.ReadColors` performs the same scan as a loop over `isExec`,
    `exec` and `execArray`.
  - `Interpreter.Meaning` is an independent reference reading of a program
    as a list of statements, and `Interpreter.TrailerError` reads what may
    follow the last statement: skipped codes and an unclosed statement.
    `Interpreter.ScanOfProgram` proves that the scan agrees with them.

JavaScript values are the datatype `Js.JsValue`, with JavaScript truthiness.
Functions are opaque datatype values:
- a client function is `UserFn(id)`;
- the adapter made by `createParamFn` is `ParamAdapter(fn, g, b)`;
- the default `function() {}` is `NoOp`.

Running a client function is outside the model. Its result is the parameter
`env(id, args)` of `Run` and `ReadColors`.

The model corrects the source in three places (see "## Findings"):
- `Decode` strips the `#` before parsing the digits, so `checkRValue` tests
  the code's own R channel;
- the registry is keyed by the color string, not by the fresh `{color}`
  object that the source passes to its `WeakMap`;
- `createParamFn` records `r` in `rValues`.

The code as written is modelled beside them.

Unlike `bindValue`, `bindFn` (colorql.ts:46-48) does not consult `rValues`;
the model follows the code (`Registry.BindFnIgnoresReservation`).

## Model

| member | source | states |
|---|---|---|
| Codec.ToHexStringSpec | colorql.ts:23 | `n.toString(16)` is lower-case hex digits that denote `n`, with no leading zero |
| Codec.HexToRgb | colorql.ts:13-20 | six hex digits give channels exactly when well formed, and the channels recombine to the digits' value: r·2^16 + g·2^8 + b; channels are 0..255 by type |
| Codec.Decode | colorql.ts:13-20 | a code decodes exactly when it is `#` followed by six hex digits |
| Codec.RgbToHexFormat | colorql.ts:22-24 | `rgbToHex(r, g, b)` is 7 characters: `#` then six lower-case hex digits |
| Codec.DecodeEncode | colorql.ts:13-24 | decoding `rgbToHex(r, g, b)` gives back (r, g, b) |
| Codec.EncodeDecode | colorql.ts:13-24 | re-encoding a decoded code gives the same code in lower case |
| Codec.Channels | colorql.ts:15-17 | the three `>>`/`& 255` extractions recover the channels packed by `rgbToHex` |
| Codec.Split | colorql.ts:15-17 | a value below 2^24 is the sum of its three masked bytes |
| Codec.BlackCode | colorql.ts:23 | `rgbToHex(0, 0, 0)` is `#000000` |
| Codec.HexToRgbAsWrittenIgnoresCode | colorql.ts:14 | as written, every well-formed code decodes to (0, 0, 0) |
| Codec.HexToRgbAsWrittenCounterexample | colorql.ts:14 | `#050000` has R channel 5, but the code as written reads (0, 0, 0) |
| Codec.HexToRgbAsWrittenOnDigits | colorql.ts:13-20 | on the six digits alone, the code as written agrees with `HexToRgb` |
| Registry.IndexOf | colorql.ts:30 | `indexOf` is -1 exactly when absent; otherwise it is the first position of the value |
| Registry.BandKeyDecodes | colorql.ts:77 | pair i of the band has a code that decodes to (r, i / 256, i % 256) |
| Registry.BandKeyInjective | colorql.ts:75-77 | distinct (g, b) pairs write distinct codes |
| Registry.BandAt | colorql.ts:75-81 | after the loops, the code of (r, g, b) holds the adapter calling `fn(g, b)` |
| Registry.BandKeysExactly | colorql.ts:75-81 | the band's keys are exactly the lower-case codes with R channel r |
| Registry.GetAfterBindValue | colorql.ts:35-42 | a reserved color is refused with no change; otherwise `getBinding` of the color gives the new value, or throws if it is falsy; every other color is unchanged |
| Registry.BindValueOverwrites | colorql.ts:35-42 | the last `bindValue` of a color wins |
| Registry.RemoveBindingEffect | colorql.ts:62-69 | a reserved color is refused with no change; otherwise exactly that key is gone, and an absent key makes no change |
| Registry.RemoveUndoesBind | colorql.ts:35-42 | `removeBinding` undoes `bindValue` of an unbound color |
| Registry.BindFnIgnoresReservation | colorql.ts:46-48 | `bindFn` stores its function even at a reserved code |
| Registry.CreateParamFnInstalls | colorql.ts:73-81 | on a free channel there is no error, `r` becomes reserved, and every (g, b) code yields its adapter |
| Registry.CreateParamFnDuplicate | colorql.ts:82-84 | on a reserved channel it is refused with no change |
| Registry.CreateParamFnKeepsOthers | colorql.ts:73-85 | every key outside the band keeps its entry: codes of other channels, and channel-r codes with upper-case digits |
| Registry.ReservationExclusive | colorql.ts:28-31 | once `r` is reserved, `bindValue`, `removeBinding` and a second `createParamFn` on its codes are refused |
| Registry.CreateParamFnValid | colorql.ts:74 | the reserved list stays free of duplicates |
| Registry.RemoveFirstSpec | colorql.ts:95-98 | the splice removes `r`, keeps every other value, keeps them distinct, and does nothing when `r` is absent |
| Registry.RemoveParamFnClears | colorql.ts:89-99 | every code of the band then throws "No binding"; `r` is released and the other channels stay reserved |
| Registry.RemoveParamFnKeepsOthers | colorql.ts:89-94 | every key outside the band keeps its entry |
| Registry.UpperCaseCodeKept | colorql.ts:89-93 | a code with an upper-case hex letter, such as `#05000A`, is never in the band, so `removeParamFn` keeps its binding |
| Registry.RemoveParamFnIdempotent | colorql.ts:89-99 | a second `removeParamFn(r)` changes nothing |
| Registry.CreateAfterRemove | colorql.ts:95-98 | the channel can then be claimed again |
| Registry.RemoveUndoesCreate | colorql.ts:73-99 | `removeParamFn` undoes `createParamFn` when the band was empty before |
| Registry.CheckRValueAsWrittenTestsZero | colorql.ts:28-31 | as written, `checkRValue` of any code only asks whether channel 0 is reserved |
| Registry.CreateParamFnAsWrittenLeavesBandOpen | colorql.ts:73-85 | as written, `r` is not recorded, so a second `createParamFn(r)` and a `bindValue` into the band both succeed |
| Engines.Engine.constructor | colorql.ts:10-11 | both the registry and the reserved list start empty |
| Engines.Engine.CheckRValue | colorql.ts:28-31 | true exactly when the code decodes and its R channel is reserved |
| Engines.Engine.BindValue | colorql.ts:35-42 | the in-place update is `State.BindValue`, and the reserved list stays distinct |
| Engines.Engine.BindFn | colorql.ts:46-48 | the in-place update is `State.BindFn` |
| Engines.Engine.GetBinding | colorql.ts:52-58 | success exactly when the code is bound to a truthy value, giving that value; otherwise "No binding for" the code |
| Engines.Engine.RemoveBinding | colorql.ts:62-69 | the in-place update is `State.RemoveBinding` |
| Engines.Engine.CreateParamFn | colorql.ts:73-85 | the in-place update is exactly `State.CreateParamFn`: the band is written and `r` reserved, or it is refused with no change |
| Engines.Engine.WriteBand | colorql.ts:75-81 | the nested loops, B inside G, add exactly the 65536 adapters of the band and nothing else |
| Engines.Engine.RemoveParamFn | colorql.ts:89-99 | the in-place update is exactly `State.RemoveParamFn`: the band is deleted and `r` spliced out |
| Engines.Engine.DeleteBand | colorql.ts:90-94 | the nested loops delete exactly the 65536 codes of the band and nothing else |
| Engines.Engine.ReadColors | colorql.ts:104-133 | the loop returns `Run`, and it records the client calls made, in order |
| Engines.InstallStep | colorql.ts:75-79 | one inner pass extends the written band by the pair's code |
| Engines.DeleteStep | colorql.ts:90-93 | one inner pass extends the deleted band by the pair's code |
| Engines.WeakKeyed.constructor | colorql.ts:10 | the `WeakMap` starts empty |
| Engines.WeakKeyed.Set | colorql.ts:38 | `set({color}, v)` adds an entry under a key that was not there before |
| Engines.WeakKeyed.Get | colorql.ts:53 | `get({color})` finds nothing, whatever was set |
| Engines.WeakKeyed.Delete | colorql.ts:65 | `delete({color})` removes nothing |
| Interpreter.Outcomes | colorql.ts:120-121 | one result per statement, in statement order |
| Interpreter.ScanAppend | colorql.ts:108-127 | scanning `xs + ys` scans `xs`, then `ys` from where it stopped, unless it failed |
| Interpreter.CallsGrow | colorql.ts:108-127 | the scan never drops a dispatched statement |
| Interpreter.ResolveSpec | colorql.ts:113-116 | a statement resolves exactly when every code is bound to a truthy value; the values are then those bindings, in order, and otherwise the error names the first code without a truthy binding |
| Interpreter.SkipPlain | colorql.ts:109-117 | outside a statement, codes without a sentinel change nothing |
| Interpreter.BufferPlain | colorql.ts:113-116 | inside a statement, plain codes are looked up and appended in order, or the scan stops at the first failed lookup |
| Interpreter.ResolvedHead | colorql.ts:54-57 | the first value of a resolved statement is truthy, so `|| function() {}` keeps it |
| Interpreter.CloseStep | colorql.ts:117-125 | a close calls the first buffered value with the rest, or fails when that value is not a function |
| Interpreter.SegmentScan | colorql.ts:108-126 | one statement, after skipped codes, adds exactly its call, or stops with its error |
| Interpreter.FirstSegmentScan | colorql.ts:108-127 | the first statement either stops the scan with its error, or adds its call and leaves a closed state for the rest |
| Interpreter.RenderScan | colorql.ts:108-127 | a whole program dispatches its statements' calls in order, stops at the first failing statement, and otherwise ends outside a statement |
| Interpreter.ScanOfRender | colorql.ts:104-133 | `readColors` agrees with the reference reading: the calls, the error, and the value returned |
| Interpreter.TrailerScan | colorql.ts:109-116 | codes after the last statement dispatch nothing; an unclosed statement fails exactly when one of its codes has no binding |
| Interpreter.ScanOfProgram | colorql.ts:104-133 | on statements followed by a trailer, `readColors` returns the statements' results, or the first statement's error, or the unclosed statement's error; a statement re-opened before its close, and a stray `#000000` between statements, are outside it |
| Interpreter.ReopenExample | colorql.ts:109-116 | `#FFFFFF a #FFFFFF b #000000` with `a` unbound fails with "No binding for" `a`: the abandoned codes are still looked up |
| Interpreter.UnclosedExample | colorql.ts:113-115 | `#FFFFFF a #000000 #FFFFFF missing` fails with "No binding for" `missing` |
| Interpreter.StrayCloseRedispatches | colorql.ts:117-119 | an unguarded second `#000000` calls the leftover arguments again, the first of them as the function |
| Interpreter.CommentOrderCallsNothing | colorql.ts:102 | the order in the comment calls only `function() {}` and leaves a statement open |
| Interpreter.SentinelsIgnoreBindings | colorql.ts:109-117 | the sentinels act the same whatever they are bound to |
| Interpreter.SentinelCodes | colorql.ts:109-117 | band code (0, 0, 0) is the closing sentinel; `rgbToHex(255, 255, 255)` is not the opening one |
| Interpreter.NotSentinel | colorql.ts:23 | no other `rgbToHex` code is a sentinel |
| Interpreter.OneStatement | colorql.ts:108-127 | a one-statement program renders as `#FFFFFF body #000000` and means that statement's call |
| Interpreter.TwoStatements | colorql.ts:108-127 | a two-statement program means its two calls in order, or the first error |
| Interpreter.OneCode | colorql.ts:113-118 | a one-code statement calls the code's binding with no arguments |
| Interpreter.OrderExample | colorql.ts:120-129 | two statements give their results in statement order |
| Interpreter.SumExample | colorql.ts:113-121 | arguments are passed in code order: `f(3, 4)` |
| Interpreter.FailFastExample | colorql.ts:113-115 | an unbound code in a later statement fails the whole run with "No binding" |
| Interpreter.AdapterStatement | colorql.ts:77-79 | a statement led by an adapter runs `fn(g, b)`, ignoring its other arguments, and gives `undefined` |
| Interpreter.ParamFnStatement | colorql.ts:73-81 | after `createParamFn(r, fn)`, the statement led by `rgbToHex(r, g, b)` runs `fn(g, b)` and gives `undefined` |

## Left out

- The `async` `forEach` callback, `await boundFn()` and `Promise.all` (colorql.ts:104-132) are not modelled. The scan is sequential and returns the statements' results in order.
  - As written with `isAsync` true, every `push` at colorql.ts:121 runs only after its `await` resumes. `Promise.all(execArray)` at colorql.ts:129 runs synchronously right after `forEach` returns, so the array is always empty and `readColors(colors, true)` resolves to `[]`.
  - The `await` also defers `isExec = false` (colorql.ts:125), so codes after a close are still looked up until the next `#FFFFFF`.
  - A failed lookup or `bind` rejects the promise of that one callback, and the scan goes on.
- Interpreter.ScanOfProgram: covers only programs whose codes between statements contain no sentinel. A statement re-opened by a second `#FFFFFF` is shown by `Interpreter.ReopenExample`, and a stray close by `Interpreter.StrayCloseRedispatches`, but the reference reading does not describe them.
- Interpreter.Run: stops at the first failure and returns the error. This is not the as-written behaviour just described.
- Running client functions, and `fn.bind(this, ...)`, are not modelled. A client function is an id, and its result is the parameter `env`. A call on a non-function value is the error `NotAFunction`, which stands for the `TypeError` of `bind`.
- Engines.Engine.ReadColors: does not make the client calls. It returns them, in order, as `invoked`.
- `parseInt` on malformed input is not modelled. That means leading spaces, signs, a `0x` prefix, more than 13 digits (float precision), and `NaN` other than the no-digit case. `Decode` accepts exactly `#` and six hex digits.
- Channel and `rValue` arguments are 0..255 (the type `Byte`). Out-of-range numbers in the 32-bit `<<`/`|` of colorql.ts:23 are not modelled.
- `WeakMap` garbage collection, and object identity beyond freshness, are not modelled.
- The default export (colorql.ts:135-137) is a plain re-export and is not modelled.
- `Error(...)` objects are returned as the datatype `Registry.Error`, and `throw` as `Failure`.
- Registry.BandKeysExactly: a code with upper-case letters and R channel r is not in the band. `removeParamFn` only deletes the lower-case codes that `rgbToHex` builds, as the source does (`Registry.UpperCaseCodeKept`).

## Findings

| source | as written | input that shows it | evidently intended | confidence | as-written member | corrected member |
|---|---|---|---|---|---|---|
| colorql.ts:14 | `parseInt(hex, 16)` is given the whole code, `#` included, so it gives `NaN` and every channel is 0 | `hexToRgb("#050000")` gives (0, 0, 0), not (5, 0, 0) | parse the six digits after `#` | not executed | Codec.HexToRgbAsWrittenCounterexample | Codec.DecodeEncode |
| colorql.ts:28-31 | `checkRValue` reads the R channel through that `hexToRgb`, so it only asks whether 0 is reserved | with `rValues = [5]`, `checkRValue("#050000")` is false | test the code's own R channel | not executed | Registry.CheckRValueAsWrittenTestsZero | Registry.ReservationExclusive |
| colorql.ts:74-84 | `createParamFn` never pushes `rValue` onto `rValues` | `createParamFn(5, f)` then `bindValue("#050000", v)` is accepted and overwrites the adapter | reserve `rValue` after writing the band | not executed | Registry.CreateParamFnAsWrittenLeavesBandOpen | Registry.ReservationExclusive |
| colorql.ts:38, 53, 65 | the `WeakMap` is keyed by a fresh `{color}` object on every call, so no lookup or delete finds an entry | `bindValue("#010101", 1)` then `getBinding("#010101")` throws "No binding" | key the registry by the color string | not executed | Engines.WeakKeyed.Get | Registry.GetAfterBindValue |
