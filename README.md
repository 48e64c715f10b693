# Fibonacci handler — a Dafny model

This project models the Go endpoint in `api/fib/handler.go`. It covers two pieces:

- `fibonacci(n, startx, starty)`. It rejects negative arguments. For the standard seed (0, 1) it answers from a 31-entry pregenerated table. For any other seed it orders the two seeds and appends sums of the last two elements. It stops once the loop index passes `n` or the next sum exceeds `n` or 1,000,000.
- The parameter handling at the top of `Handler`. A missing `n` is reported first. Absent seeds default to 0 and 1. Parse errors are reported in the order startx, starty, n. `fibonacci` is called only when all three values parse.

Modules:

- `Wrappers` (wrappers.dfy): `Option`, and `Result`, which carries either a value or an error message.
- `GoInt` (go_int.dfy): the 64-bit range of Go's `int` and its wrap-around addition.
- `Strconv` (strconv.dfy): `strconv.Atoi` as a signed-decimal parser bounded to 64 bits, with a round trip against a decimal printer.
- `Fib` (fib.dfy): the table, the specification function `FibonacciSpec`, and the imperative `Fibonacci` method. The method is proved equal to `FibonacciSpec`.
- `FibProperties` (fib_properties.dfy): what the three paths return. This includes a loop-free description of the general path that holds if and only if a sequence is its result.
- `FibOverflow` (fib_overflow.dfy): the general-path loop with Go's 64-bit addition (see Findings).
- `FibHandler` (handler.dfy): `ResolveParams` and `Handle`.

The code caps the VALUES of the sequence by `n` (and by 1,000,000), not just the number of terms. For example, `n = 10` with seeds (5, 5) gives `[5, 5, 10]`, not eleven terms. The general path always returns at least the two seeds, even for `n = 0`. The client form in `app/(dashboard)/fibonacci/form.tsx` (lines 26-36) only lets a user submit `n` between 0 and 1,000,000. The handler itself never checks that upper bound, and this model follows the handler.

## Model

| member | source | states |
|---|---|---|
| `GoInt.Wrap64` | api/fib/handler.go:98 | a Go `int` sum is congruent to the exact sum modulo 2^64 and lies in the 64-bit range; a sum already in range is unchanged |
| `Strconv.Atoi` | api/fib/handler.go:27 | the parse succeeds exactly when the string spells a 64-bit value, and it returns that value. A spelling is an optional '+' or '-', any number of leading '0's, then the shortest decimal digits of the magnitude, with '-' only before a value <= 0. Every other string, the empty one included, is an error |
| `Strconv.AtoiItoa` | api/fib/handler.go:47 | every 64-bit integer written in decimal parses back to itself |
| `FibHandler.Seed` | api/fib/handler.go:25-44 | an absent seed parameter yields its default. A present one fails exactly when `Atoi` fails, and otherwise yields the 64-bit value it spells |
| `Fib.Extend` | api/fib/handler.go:97-103 | the loop only appends to the partial result. It never makes it longer than `n + 1`, the bound set by the loop index |
| `Fib.GeneralPath` | api/fib/handler.go:87-104 | the general path has between 2 and max(2, n+1) elements, and starts with the smaller seed, then the larger |
| `Fib.Seeds` | api/fib/handler.go:90-94 | the general path starts with the two seeds, smaller first, as a permutation of the pair |
| `Fib.FirstAbove` | api/fib/handler.go:80-84 | the index where the range loop over the table returns: every earlier entry is at most `n` and the entry there (if any) exceeds `n` |
| `Fib.FibonacciSpec` | api/fib/handler.go:69-72 | the result is an error exactly when `n`, `startx` or `starty` is negative, and the error carries the source's message |
| `Fib.ScanTable` | api/fib/handler.go:80-84 | the range loop over the table stops at the first entry above `n`, or runs off the end when there is none |
| `Fib.Generate` | api/fib/handler.go:87-104 | ordering the seeds and running the accumulator loop with its early break yields exactly the general path |
| `Fib.Fibonacci` | api/fib/handler.go:69-107 | the whole function (validation, whole table for large `n`, early return from the table scan, otherwise the general path) returns exactly `FibonacciSpec` |
| `FibProperties.PregeneratedIsFibonacci` | api/fib/handler.go:10 | the table has 31 entries 0, 1, ..., 832040; each entry from index 2 on is the sum of the previous two; all entries lie in [0, 832040] |
| `FibProperties.StandardSeedLargeN` | api/fib/handler.go:75-78 | seed (0, 1) with `n` >= 1,000,000 returns the whole table |
| `FibProperties.StandardSeedFallThrough` | api/fib/handler.go:75-104 | seed (0, 1) with 832040 <= `n` < 1,000,000 finds no entry above `n`, falls through to the general path, and that path still yields the whole table |
| `FibProperties.StandardSeedIsLongestPrefix` | api/fib/handler.go:75-104 | for every `n` >= 0, seed (0, 1) yields the longest prefix of the table whose entries are all at most `n` |
| `FibProperties.StandardSeedSmallN` | api/fib/handler.go:80-84 | below 832040 the table path answers, with a prefix of 1 to 30 entries |
| `FibProperties.StandardSeedZero` | api/fib/handler.go:80-84 | `n = 0` with seed (0, 1) gives `[0]` |
| `FibProperties.StandardSeedOne` | api/fib/handler.go:80-84 | `n = 1` with seed (0, 1) gives `[0, 1, 1]` |
| `FibProperties.StandardSeedThirty` | api/fib/handler.go:80-84 | `n = 30` with seed (0, 1) gives `[0, 1, 1, 2, 3, 5, 8, 13, 21]` |
| `FibProperties.ExtendIsGeneralResult` | api/fib/handler.go:96-104 | the loop keeps its invariant: ordered seeds first, each later element the sum of the previous two and at most `n` and 1,000,000, length at most max(2, n+1). It stops only when the index passes `n` or the next sum exceeds a bound |
| `FibProperties.GeneralResultUnique` | api/fib/handler.go:96-104 | at most one sequence meets that description |
| `FibProperties.GeneralPathCharacterised` | api/fib/handler.go:87-106 | a sequence meets the description if and only if it is what the general path returns |
| `FibProperties.GeneralPathExample` | api/fib/handler.go:87-106 | `n = 10`, seeds (5, 5) gives `[5, 5, 10]`; `n = 100`, seeds (8, 3) gives `[3, 8, 11, 19, 30, 49, 79]` |
| `FibProperties.ZeroSeedsFillToN` | api/fib/handler.go:87-104 | with seeds (0, 0) and any `n` >= 1, the result is `n + 1` zeros, because no sum ever exceeds a bound |
| `FibProperties.FibonacciNonNegative` | api/fib/handler.go:69-106 | every element of every successful result is non-negative |
| `FibOverflow.ExtendAsWritten` | api/fib/handler.go:97-103 | the loop with 64-bit wrapping addition only appends: its input is a prefix of its result |
| `FibOverflow.ExtendAsWrittenBounded` | api/fib/handler.go:97-103 | even with wrap-around, every appended value is a 64-bit int at most `n` and 1,000,000 |
| `FibOverflow.OverflowAppendsNegative` | api/fib/handler.go:98-103 | seeds 2^62, 2^62 and `n = 5`: the loop as written appends -2^63 and -2^62, while exact addition returns only the seeds |
| `FibOverflow.AsWrittenAgreesWithoutOverflow` | api/fib/handler.go:97-103 | for non-negative seeds whose sum fits in 64 bits, the loop as written and the exact model return the same sequence |
| `FibHandler.ResolveParams` | api/fib/handler.go:15-51 | a missing `n` fails first; then a bad startx, then a bad starty, then a bad `n`, each with its message. Success happens exactly when all three resolve, with absent seeds defaulting to 0 and 1 |
| `FibHandler.Handle` | api/fib/handler.go:15-57 | a resolution error becomes a Bad Request with that message. Otherwise `fibonacci` runs on the resolved values, and its error or its sequence is the answer |
| `FibHandler.DefaultSeeds` | api/fib/handler.go:21-44 | with both seeds absent, a parsable `n` resolves to the request (n, 0, 1) |
| `FibHandler.DefaultRequestExample` | api/fib/handler.go:15-53 | the query `n=30` alone resolves to (30, 0, 1), and `fibonacci` on that request yields `[0, 1, 1, 2, 3, 5, 8, 13, 21]` |

## Left out

- HTTP plumbing: the response writer, the status codes, the `Content-Type` header and JSON encoding, including the 500 answer when encoding fails. Every handler error is a 400, modelled as `BadRequest(message)`. A success is `Json(values)`.
- Query-string parsing and URL decoding are not modelled. The three parameters arrive as the strings `Query().Get` returns, where `""` stands for both an absent and an empty parameter.
- Strconv.Atoi: Go's distinction between syntax errors and range errors is not kept, because the handler treats both alike.
- Fib.Fibonacci: uses exact integer addition. This is the corrected behaviour; the 64-bit wrap-around of the loop as written is modelled separately in `FibOverflow` (see Findings). The arguments are not restricted to 64 bits here, because `Atoi` already bounds them in `Handle`.
- FibHandler.Handle: inherits exact addition from `Fibonacci`. On the query in Findings, `Handle` answers `Json([2^62, 2^62])`, while the Go handler answers with the four-element list that contains negative values.
- Fib.Generate, Fib.Fibonacci: memory exhaustion is not modelled. With seeds (0, 0) every sum is 0, so the loop appends until the index passes `n` (`ZeroSeedsFillToN`). The handler puts no cap on `n`, so a query such as `n=9223372036854775807&startx=0&starty=0` makes Go grow a slice toward 2^63 elements, which fails in the runtime. The model instead returns a sequence of `n + 1` zeros.
- The returned table is modelled as a value. The Go code returns the shared table slice itself, so aliasing between callers is not captured.
- A nil slice versus an empty slice is not distinguished. The error path returns `Failure` and no sequence.

## Findings

| source | as written | input that shows it | evidently intended | confidence | as-written member | corrected member |
|---|---|---|---|---|---|---|
| api/fib/handler.go:98-103 | `next := result[i-1] + result[i-2]` wraps around in 64-bit `int`. A wrapped, negative sum passes the `next > n` guard and is appended | `n=5&startx=4611686018427387904&starty=4611686018427387904` returns `[2^62, 2^62, -2^63, -2^62]` | stop at the first sum whose exact value exceeds `n`, here returning the two seeds; never produce a negative term from non-negative seeds | high on 64-bit platforms; not executed | `FibOverflow.ExtendAsWritten` (exhibited by `FibOverflow.OverflowAppendsNegative`) | `FibProperties.FibonacciNonNegative` |
