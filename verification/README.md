# Iou: a lazily initialised cell, in Dafny

`Iou<S, F, T>` (src/lib.rs) holds a seed `S` and a one-shot initializer
`F: FnOnce(S) -> T` until the value is first needed. `init`, `borrow` and
`borrow_mut` then take the pair out, apply the initializer once, and cache
the value. `unwrap` consumes the cell and hands over the value. The state
lives in a `RefCell`, so shared (`Ref`) and exclusive (`RefMut`) guards are
checked at run time.

The model is functional. A cell is an immutable value
`Iou(state, flag, calls)`:

- `state` is the enum `IouState`. It is `PreInit(Some(Pending(s, f)))` when
  fresh, `PreInit(None)` when corrupted by a panicking initializer, and
  `Init(t)` once initialised.
- `flag` is the `RefCell` borrow flag: a count of outstanding `Ref` guards
  and a bit for an outstanding `RefMut`.
- `calls` counts applications of the initializer. It is bookkeeping of the
  model, not a field of the Rust value.

The initializer is a Dafny function `S -> Option<T>`; `None` stands for the
initializer panicking. Each operation is a step from a cell to a result and
the next cell. A panic becomes an `Err`:

- `BadState` for the `expect` at src/lib.rs:56 and the `panic!`s at
  src/lib.rs:41, 70 and 85;
- `InitFailed` for a panic of the initializer itself;
- `BorrowConflict` for a borrow the `RefCell` refuses (src/lib.rs:46, 54, 66, 81).

Modules: `IouLib` (iou.dfy) is src/lib.rs, with lemmas about single
operations. `IouTraces` (iou_traces.dfy) runs any sequence of operations
and proves what holds over all of them. `Demo` (demo.dfy) replays
examples/demo.rs.

On a corrupted cell `is_init` answers `false` (src/lib.rs:46) rather than
failing.

## Model

| member | source | states |
|---|---|---|
| `IouLib.New` | src/lib.rs:27-29 | a new cell holds exactly the seed and initializer, is unborrowed, has run the initializer zero times, and satisfies the reachability invariant `Valid` |
| `IouLib.IsInit` | src/lib.rs:45-47 | fails with a borrow conflict exactly when an exclusive guard is outstanding; otherwise true exactly for an initialised cell, so a corrupted cell answers false |
| `IouLib.Initialize` | src/lib.rs:50-58 | success leaves the cell initialised; an initialised cell is left unchanged; on a fresh unborrowed cell the initializer runs once, storing its value or leaving the cell corrupted with `InitFailed`; `BadState` exactly for a corrupted cell; the borrow flag never changes; `Valid` is preserved |
| `IouLib.Borrow` | src/lib.rs:63-74 | on an initialised cell with no exclusive guard returns its value and adds one shared guard; on a fresh unborrowed cell runs the initializer once and returns `f(s)` under one shared guard, or `InitFailed` leaving the cell corrupted; fails with a borrow conflict while an exclusive guard is outstanding; never changes an initialised value; `Valid` is preserved |
| `IouLib.BorrowMut` | src/lib.rs:78-89 | succeeds only on an unborrowed cell; on an unborrowed initialised cell returns its value and takes the exclusive guard; on a fresh unborrowed cell runs the initializer once and returns `f(s)` under the exclusive guard, or `InitFailed` leaving the cell corrupted; any outstanding guard makes it fail with nothing changed; `Valid` is preserved |
| `IouLib.Assign` | src/lib.rs:78-89 | a write through the exclusive guard replaces the value and changes neither the flag nor the call count |
| `IouLib.DropRef` | examples/demo.rs:24-25 | dropping a `Ref` removes exactly one shared guard and nothing else |
| `IouLib.DropRefMut` | examples/demo.rs:18 | dropping the `RefMut` clears the exclusive guard; on a valid cell it leaves the cell unborrowed |
| `IouLib.Unwrap` | src/lib.rs:37-43 | an initialised cell yields its value; a fresh cell runs the initializer once and yields its value or `InitFailed`; a corrupted cell yields `BadState`; from a valid cell the initializer has run exactly once in total afterwards |
| `IouLib.NewIsPending` | src/lib.rs:45-47 | a new cell reports not initialised and has not run its initializer |
| `IouLib.InitializeNew` | src/lib.rs:50-58 | `init` on a new cell runs the initializer once: on success the state is `Init(f(s))` and `is_init` is true; on failure the cell is corrupted and `is_init` is false |
| `IouLib.InitializeIdempotent` | src/lib.rs:50-53 | after a successful `init`, a second `init` succeeds and changes nothing |
| `IouLib.AssignThenBorrow` | src/lib.rs:63-89 | a value written through the exclusive guard is what the next `borrow` returns, and only the value and the flag differ from before |
| `IouLib.BorrowMutAssignThenBorrow` | src/lib.rs:63-89 | a value written through the guard a successful `borrow_mut` hands out is what the next `borrow` returns |
| `IouLib.BorrowBadStateOnlyIfCorrupted` | src/lib.rs:64-87 | `borrow` and `borrow_mut` fail with `BadState` exactly on an unborrowed corrupted cell, so the panicking arms of their mapping closures are unreachable; after a successful `init`, `borrow` returns the value `init` stored |
| `IouLib.CorruptedFailsWithBadState` | src/lib.rs:37-58 | on a corrupted cell `init`, `borrow` and `borrow_mut` fail with `BadState` and change nothing, `unwrap` fails with `BadState`, and `is_init` answers false |
| `IouLib.BorrowExclusivity` | src/lib.rs:45-89 | an exclusive guard excludes `borrow` and `borrow_mut`; a shared guard excludes `borrow_mut`; further shared guards are granted alongside existing ones |
| `IouLib.UnwrapMatchesBorrow` | src/lib.rs:37-74 | consuming a never-forced cell yields what `borrow` on it yields, with the same call count, and the same as consuming it after a successful `init` |
| `IouTraces.Apply` | src/lib.rs:45-89 | every single operation preserves `Valid`, never takes an initialised cell back to `PreInit`, leaves a corrupted cell untouched, and runs the initializer only on a fresh cell |
| `IouTraces.RunPreservesValid` | src/lib.rs:50-58 | every sequence of operations preserves the invariant `Valid` |
| `IouTraces.AtMostOnce` | src/lib.rs:37-58 | over any sequence of operations from `new`, the initializer runs at most once, it has run exactly when the seed/initializer pair is gone, and a final `unwrap` leaves the total at exactly one |
| `IouTraces.InitIsPermanent` | src/lib.rs:50-89 | from an initialised cell, no sequence of operations reaches `PreInit` |
| `IouTraces.CorruptionIsPermanent` | src/lib.rs:55-57 | no sequence of operations changes a corrupted cell |
| `IouTraces.FailedInitializerIsSticky` | src/lib.rs:37-58 | if the initializer panics, the first `init` reports `InitFailed`; after any further operations, `init`, `borrow`, `borrow_mut` and `unwrap` fail with `BadState` and `is_init` answers false |
| `IouTraces.RunKeepsSeedValue` | src/lib.rs:55-57 | with no writes, a cell built by `new(s, f)` keeps either the pair `(s, f)` or the value `f(s)` over any sequence of operations |
| `IouTraces.StoredValueIsInitializerValue` | src/lib.rs:55-57 | without writes, whatever value a cell from `new(s, f)` holds is `f(s)` |
| `IouTraces.InitsOnInitialised` | src/lib.rs:50-53 | on an initialised cell with no exclusive guard, any number of `init` calls changes nothing |
| `IouTraces.InitIdempotentN` | src/lib.rs:50-58 | calling `init` n >= 1 times leaves the same cell as calling it once |
| `Demo.CharSet` | examples/demo.rs:5-7 | a character is in the set exactly when it occurs in the string |
| `Demo.DemoSteps` | examples/demo.rs:9-29 | for any seed whose initializer yields a set: the first borrow sees that set; both simultaneous borrows and `unwrap` see it with 'l' removed; the initializer ran once |
| `Demo.HelloDemo` | examples/demo.rs:10-28 | with seed "hello": first {'h','e','l','o'}, then {'h','e','o'} for both borrows and for `unwrap`, and one initializer call |

## Left out

- Panic messages and unwinding. A panic is an `Err` result. The guard that
  `init` holds while the initializer panics is released, as unwinding
  drops it.
- `BorrowConflict` merges the `RefCell`'s two error kinds: a refused shared
  borrow and a refused exclusive borrow.
- Ownership, moves and lifetimes. `Ref` and `RefMut` guards are counts in
  the borrow flag, and dropping one is an explicit step.
- `IouLib.Assign`, `IouLib.DropRef`, `IouLib.DropRefMut`: they require the
  guard they act on, which Rust's borrow checker guarantees statically.
- `IouLib.Unwrap`: requires an unborrowed cell, because Rust cannot move a
  cell while a guard borrows it.
- `IouTraces.Apply`: a write or a drop without its guard cannot be written
  in Rust; in a sequence of operations it leaves the cell unchanged.
- Re-entrant use of the cell from inside the initializer. In Rust it panics
  on the borrow at src/lib.rs:46 and leaves the cell corrupted. This depends
  on what the closure captures, which a Dafny function cannot express.
- The `if let PreInit(p)` at src/lib.rs:55 is modelled only in its taken
  arm. `is_init` has just answered false, so the state is `PreInit` there.
- Thread safety: `Iou` is not `Sync`, and the code has no concurrency.
- The demo's `println!` output and `HashSet` hashing. The demo's set is a
  Dafny `set<char>`.
