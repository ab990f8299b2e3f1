# tcl-augeas: handle table, token codec and command replies

A Dafny model of the C core of tcl-augeas, the Tcl binding for the Augeas
configuration-editing library (`tcl-augeas.c`). Three parts are modelled:

- **The handle table** (`registry.dfy`, module `Registry`). The global arrays
  `augeas_objects` and `augeas_object_active` become the class
  `Registry.SlotTable<H>`. It has two constant arrays of `MAX_COUNT = 16`
  slots, and `H` is the opaque Augeas handle. `Reset` is the flag reset of
  `Tclaugeas_Init`. `Init` is `Init_Cmd`: it stores the handle in the
  lowest free slot, sets that slot's flag, and returns `::augeas::<slot+1>`.
  `Close` is `Close_Cmd`: it clears the flag of the slot the token names.
  The pure function `FirstFree` specifies which slot `Init` picks. The
  lemmas beside it state the token round trip, revocation on close and
  slot reuse.
- **The token codec** (`token.dfy`, module `Token`). `ParseToken` is the
  `parseToken` proc, whose regular expression is
  `^(?:::augeas::)?([1-9]+[0-9]*)$`. It is proved against a declarative
  statement of that language. Decimal printing and reading are proved to
  be inverse bijections between positive integers and numerals. `ParseId`
  is `parse_id`, a function of the token and the table's flags.
- **The command replies** (`commands.dfy`, module `Commands`). Each of
  `save`, `get`, `set`, `setm`, `insert`, `mv`, `rm` and `match` checks
  the argument count (`objc` includes the command word), then resolves the
  token, then maps the engine's return code onto a `Reply`. A `Reply` is
  either `Ok(payload)` or `Err(message)`, with the exact message texts of
  the source. The engine's return code, and the strings it hands back, are
  inputs of these functions. `MatchCmd` is a method, because the source
  builds the list in a loop, and it is proved against `MatchOutcome`.

`tcl.dfy` (module `Tcl`) holds the reply types and the message strings.

The extension uses a fixed table of 16 slots. A slot is reused after
close, so token numbers repeat: `Registry.StaleTokenResolvesAfterReuse`
proves that a closed token resolves again once its slot is reused. The
file has no `load`, `rename` or `span` commands, no teardown of open
handles at the end of a session, and `insert` takes exactly five words.

`parse_id` runs the `parseToken` proc and never resets the interpreter
result afterwards, so the proc's return value, the token's digits, stays
in the interpreter. Two replies show this:

- `close`, `save`, `set`, `insert` and `mv` set no result on success, so
  they answer with those digits. For example, `save ::augeas::1` answers
  `1`.
- A `close` whose token does not resolve sets no message either. A
  malformed token gives `cannot parse token`, raised by the proc. A
  well-formed token naming an inactive slot gives the captured number
  itself. The other handlers replace the message with
  `cannot parse token`.

## Model

| member | source | states |
|---|---|---|
| `Token.ParseToken` | tcl-augeas.c:598-603 | a successful parse captures a numeral (first digit 1-9, then digits), and the token is that numeral, alone or after `::augeas::` |
| `Token.TokenLanguage` | tcl-augeas.c:598-603 | the proc accepts a token if and only if it is an optional `::augeas::` followed by a numeral with no leading zero |
| `Token.NumeralValue` | tcl-augeas.c:67-68 | the integer Tcl_GetIntFromObj reads from a digit string; a numeral denotes at least 1, so the slot index after the decrement is never negative (`Token.NumeralCanonical` proves the numeral is the printed form of this value) |
| `Token.Numeral` | tcl-augeas.c:135-136 | the `%d` text of n is a non-empty digit string, with no leading zero when n >= 1 (`Token.NumeralRoundTrip` proves it reads back as n) |
| `Token.NumeralRoundTrip` | tcl-augeas.c:134-136 | the `%d` text of a positive integer is a numeral that reads back as the same integer |
| `Token.NumeralCanonical` | tcl-augeas.c:67-68 | every numeral the regular expression admits is the printed form of its value, which is at least 1, so decoding is injective |
| `Token.FormatToken` | tcl-augeas.c:134-136 | the token init formats for slot id, with n = id + 1, starts with `::augeas::`, and for n >= 1 it parses back to the digits of n, whose value is n |
| `Token.ParseId` | tcl-augeas.c:49-79 | parse_id succeeds exactly when the token parses, its number n satisfies 1 <= n <= 16 and the flag of slot n-1 is 1. The slot it yields is in range, active, and is the one whose token the string spells. A parse failure and an inactive slot are distinct failures, the latter carrying the captured digits |
| `Token.ParseIdOfFormatToken` | tcl-augeas.c:64-75 | the token issued for a slot resolves to that slot when its flag is 1, and fails as inactive otherwise |
| `Token.Leftover` | tcl-augeas.c:60-65 | the interpreter result the parseToken proc leaves after resolving slot id is a numeral whose value is the token number id + 1 |
| `Token.LeftoverIsTokenDigits` | tcl-augeas.c:60-69 | after a successful parse_id the interpreter result is exactly the digits the token spells, and it is never empty |
| `Token.ParseIdAsWritten` | tcl-augeas.c:67-75 | parse_id as written: it fails to parse exactly when the proc rejects the token; a probe it reports as active is inside the table with flag 1; every token whose number n exceeds 16 reads index n-1, outside the array |
| `Token.ParseIdReadsBeyondTable` | tcl-augeas.c:71 | `::augeas::17` passes the regular expression and makes parse_id as written read index 16; the corrected parse_id rejects it as inactive |
| `Token.ParseIdAgreesInRange` | tcl-augeas.c:71-75 | for tokens that stay inside the table, the corrected and as-written parse_id resolve the same slot |
| `Registry.FirstFree` | tcl-augeas.c:116-124 | the chosen slot has flag 0 and every lower slot is in use; there is no slot if and only if all 16 flags are non-zero |
| `Registry.SlotScanAsWritten` | tcl-augeas.c:116-124 | the slot search as written never reads a flag of the table: whatever the flags, it yields slot 0 or -1 depending only on the int stored before the array |
| `Registry.SlotScanAsWrittenMisses` | tcl-augeas.c:120 | with slot 0 in use and slot 1 free, the search as written hands out live slot 0 or reports a full table, while the intended search picks slot 1 |
| `Registry.InitTokenResolves` | tcl-augeas.c:130-136 | after init marks the first free slot, the token it returns resolves to that slot |
| `Registry.CloseRevokesToken` | tcl-augeas.c:164-166 | once close clears a slot's flag, the token that named it fails to resolve, as inactive |
| `Registry.StaleTokenResolvesAfterReuse` | tcl-augeas.c:119-132 | when every lower slot is in use, the next init after a close reuses the closed slot, and the old token resolves again |
| `Registry.CloseFailureMessage` | tcl-augeas.c:158-162 | when parse_id fails, close returns the message the proc left: `cannot parse token` for a malformed token, the captured digits for a slot not in use; the message is a numeral exactly in the second case, so the two can be told apart |
| `Registry.SlotTable.constructor` | tcl-augeas.c:43-44 | the zero-initialised globals: tables of 16 slots, every flag 0 |
| `Registry.SlotTable.Reset` | tcl-augeas.c:581-584 | Tclaugeas_Init clears every flag and leaves the stored handles alone; the table invariant (flags are 0 or 1) holds |
| `Registry.SlotTable.Init` | tcl-augeas.c:88-141 | a count outside 2..4 gives the usage error; a full table gives an error with an empty result. In both cases the table is unchanged. Otherwise the handle goes into the lowest free slot and that flag becomes 1, no other slot changes, and the reply is `::augeas::<slot+1>`, a token that resolves to the new handle |
| `Registry.SlotTable.Close` | tcl-augeas.c:147-173 | a count other than 2 gives the usage error, and an unresolved token leaves the lookup's message; in both cases nothing changes. Otherwise exactly the named slot's flag becomes 0, the handles are untouched, the reply is the token's digits that parse_id left in the interpreter, and the token then fails to resolve |
| `Commands.Resolve` | tcl-augeas.c:222-227 | the argument count is checked before the token; a token that does not resolve gives `cannot parse token`; a resolved slot is in range and active |
| `Commands.SaveCmd` | tcl-augeas.c:181-202 | a count other than 2 gives the usage error; otherwise the reply is OK exactly when the token resolves, carrying the token's digits left by parse_id, and `cannot parse token` when it does not |
| `Commands.GetOutcome` | tcl-augeas.c:233-250 | code 1 gives the value; a negative code gives `multiple nodes match path`; 0 or a code above 1 gives `node not found` |
| `Commands.GetCmd` | tcl-augeas.c:211-251 | a count other than 3 gives the usage error, then a failed token gives `cannot parse token`, otherwise the get mapping |
| `Commands.GetDistinguishesFailures` | tcl-augeas.c:235-250 | zero matches and several matches give different errors, both different from the token error |
| `Commands.SetOutcome` | tcl-augeas.c:284-299 | 0 is OK with the interpreter result left in place; -1 gives `multiple nodes match path`; any other code gives `unknown error` |
| `Commands.SetCmd` | tcl-augeas.c:259-300 | a count other than 4 gives the usage error, then a failed token gives `cannot parse token`, otherwise the set mapping, whose success carries the token's digits |
| `Commands.SetmOutcome` | tcl-augeas.c:335-357 | a positive code is OK with that count; 0 gives `no nodes matched path`; -1 gives `could not set value`; below -1 gives `unknown error` |
| `Commands.SetmCmd` | tcl-augeas.c:310-358 | a count other than 5 gives the usage error, then a failed token gives `cannot parse token`, otherwise the setm mapping |
| `Commands.InsertOutcome` | tcl-augeas.c:394-402 | 0 is OK with the interpreter result left in place; any other code gives `insert failed` |
| `Commands.InsertCmd` | tcl-augeas.c:366-403 | a count other than 5 gives the usage error, then a failed token gives `cannot parse token`, otherwise the insert mapping, whose success carries the token's digits |
| `Commands.MvOutcome` | tcl-augeas.c:438-450 | 0 is OK with the interpreter result left in place; 1 gives `move failed`; any other code gives `unknown error` |
| `Commands.MvCmd` | tcl-augeas.c:414-451 | a count other than 4 gives the usage error, then a failed token gives `cannot parse token`, otherwise the mv mapping, whose success carries the token's digits |
| `Commands.RmOutcome` | tcl-augeas.c:483-498 | a positive code is OK with that count; 0 gives `no nodes matched path`; a negative code gives `invalid path` |
| `Commands.RmCmd` | tcl-augeas.c:459-499 | a count other than 3 gives the usage error, then a failed token gives `cannot parse token`, otherwise the rm mapping |
| `Commands.MatchOutcome` | tcl-augeas.c:531-557 | n >= 0 is OK with a list of exactly the first n matches, in order (so 0 is an empty success); a negative code gives `invalid path` |
| `Commands.MatchCmd` | tcl-augeas.c:507-558 | a count other than 3 gives the usage error, then a failed token gives `cannot parse token`; otherwise the list the append loop builds is exactly `MatchOutcome` |
| `Commands.SilentSuccessLeavesDigits` | tcl-augeas.c:199-201 | with slot 0 in use, `save`, `set`, `insert` and `mv` on `::augeas::1` each succeed with the result `1`, not the empty result their comments describe |
| `Commands.WithResultReset` | tcl-augeas.c:177 | the intended reply of a handler whose comment says "Return value: nothing": success carries the empty result, failures are unchanged |
| `Commands.ResetSilentSuccessIsEmpty` | tcl-augeas.c:286-287 | with the result reset, every successful save, set, insert, mv and close returns the empty result, and this differs from the reply as written |
| `Commands.ZeroMatchAsymmetry` | tcl-augeas.c:536-540 | for a resolved token, the same zero-match code is an error for rm and setm, but an empty successful list for match |

## Left out

- Tcl interpreter plumbing is not modelled. This covers `Tcl_EvalObjv`, reference counts, `Tcl_Obj` construction, `Tcl_Format`, the namespace, command registration and `Tcl_PkgProvide`. Replies are plain strings, integers and lists, and a failure's `errorInfo` is not represented.
- The Augeas engine is opaque. `aug_init` is represented by the handle passed to `Init`. The return codes of `aug_save`, `aug_get`, `aug_set`, `aug_setm`, `aug_insert`, `aug_mv`, `aug_rm` and `aug_match`, and the strings they return, are inputs. Nothing relates `set` to a later `get`.
- `Registry.SlotTable.Init`: the `root`, `loadpath` and `flags` words are not parameters, and the `flags` word is assumed to be an integer. A non-integer `flags` word makes `Tcl_GetIntFromObj` (tcl-augeas.c:110) put "expected integer but got …" into the result. A full table then returns that message instead of the empty result the model gives. A NULL result of `aug_init` is stored like any other handle, as in the source. The handle created before the slot search is leaked when the table is full; the model does not track it.
- `Registry.SlotTable.Close`: the call to `aug_close` on the slot's handle is not represented. The `cannot close` branch is kept, but it cannot be reached, because a resolved slot always has flag 1.
- `Token.ParseId`: `Tcl_GetIntFromObj` (tcl-augeas.c:67) is modelled as an exact decimal conversion, and numerals above 16 are rejected. The source behaves differently for large numerals:
  - Numerals up to the unsigned 32-bit maximum are accepted and cast to a C `int`. For example, `::augeas::4294967295` becomes -1, and the flag test then reads index -2.
  - Larger numerals fail the conversion. That leaves the id uninitialised and puts "integer value too large to represent" into the result, which `close` would then return instead of the digits.
- `Token.ParseIdAsWritten`: for the numerals above 16 that wrap to a negative C `int`, it reports the unwrapped index n-1 rather than the negative one. Either way the read falls outside the array.
- `Commands.InsertCmd`: the `before` word is converted without a check (tcl-augeas.c:392) and passed to the engine. Only the engine's return code is modelled. A non-integer `before` word leaves "expected integer but got …" in the result, which a successful insert then returns instead of the token's digits.
- `Commands.MatchCmd` requires that a resolved `match` gets at least n paths from the engine when the engine reports n matches. The source relies on this contract of `aug_match`.
- The `malloc` immediately overwritten at tcl-augeas.c:130 and the `value[255]` buffer at tcl-augeas.c:231 are memory artefacts with no visible effect on replies.
- The `parseToken` proc can be redefined by a script, and the globals are shared by every interpreter that loads the extension. The model assumes the proc as installed and one table. `Reset` models what a repeated `Tclaugeas_Init` does to open slots.

## Findings

The handlers model the leftover result as the code produces it, because
it is what callers observe. `Commands.WithResultReset` gives the reply
the comments describe.

| source | as written | input that shows it | evidently intended | confidence | as-written member | corrected member |
|---|---|---|---|---|---|---|
| tcl-augeas.c:120 | the free-slot loop tests `augeas_object_active[id]` while `id` is -1, an out-of-bounds read that never looks at the table | slot 0 in use, slot 1 free: init either hands out live slot 0 again, overwriting its handle, or reports a full table | test `augeas_object_active[i]` and take the lowest free slot, as the comments at lines 85 and 118 say | high; not executed | `Registry.SlotScanAsWrittenMisses` | `Registry.FirstFree` |
| tcl-augeas.c:199-201 | `save` (and likewise `close` at lines 164-168, `set` at 286-287, `insert` at 396-397 and `mv` at 440-441) returns TCL_OK without setting a result, so the digits parse_id's proc returned become the reply. `Commands.SilentSuccessLeavesDigits` shows this for save, set, insert and mv, and the ensures of `Registry.SlotTable.Close` states it for close | `save ::augeas::1` with slot 0 in use answers `1` | an empty result, as the comments "Return value: nothing" at lines 144, 177, 256, 363 and 411 say | medium; not executed | `Commands.SilentSuccessLeavesDigits` | `Commands.WithResultReset` |
| tcl-augeas.c:71 | parse_id indexes `augeas_object_active[*id]` with no check that `*id < MAX_COUNT` | token `::augeas::17` reads index 16 of a 16-slot array | reject tokens whose slot is outside the table | high; not executed | `Token.ParseIdReadsBeyondTable` | `Token.ParseId` |
