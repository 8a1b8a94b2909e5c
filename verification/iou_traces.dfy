/** Properties of a cell over any sequence of operations: the initializer
    runs at most once, an initialised cell stays initialised, a corrupted
    cell stays corrupted, and the stored value is the initializer's value
    until a write replaces it.
 */
module IouTraces {
  import opened IouLib

  /** One call a caller can make on a live cell (everything but the
      consuming `unwrap`). */
  datatype Op<T> =
    | OpIsInit
    | OpInit
    | OpBorrow
    | OpBorrowMut
    | OpAssign(v: T)   // write through the outstanding exclusive guard
    | OpDropRef
    | OpDropRefMut

  /** The cell after one operation.  A write or a drop without the guard it
      needs cannot be written in Rust; here it leaves the cell as it is. */
  function Apply<S, T>(c: Iou<S, T>, op: Op<T>): (r: Iou<S, T>)
    ensures Valid(c) ==> Valid(r)
    ensures c.state.Init? ==> r.state.Init?
    ensures Valid(c) && Corrupted(c) ==> r == c
    ensures !Fresh(c) ==> r.calls == c.calls
  {
    match op
    case OpIsInit => c
    case OpInit => Initialize(c).cell
    case OpBorrow => Borrow(c).cell
    case OpBorrowMut => BorrowMut(c).cell
    case OpAssign(v) => if c.flag.writer && c.state.Init? then Assign(c, v) else c
    case OpDropRef => if c.flag.readers > 0 then DropRef(c) else c
    case OpDropRefMut => if c.flag.writer then DropRefMut(c) else c
  }

  /** The cell after a sequence of operations, first to last. */
  function Run<S, T>(c: Iou<S, T>, ops: seq<Op<T>>): Iou<S, T>
    decreases |ops|
  {
    if |ops| == 0 then c else Run(Apply(c, ops[0]), ops[1..])
  }

  lemma {:induction false} RunPreservesValid<S, T>(c: Iou<S, T>, ops: seq<Op<T>>)
    requires Valid(c)
    ensures Valid(Run(c, ops))
    decreases |ops|
  {
    if |ops| > 0 {
      RunPreservesValid(Apply(c, ops[0]), ops[1..]);
    }
  }

  /** The initializer is applied at most once over any sequence of
      operations, the final `unwrap` included, and it has been applied
      exactly when the seed/initializer pair is gone. */
  lemma AtMostOnce<S, T>(s: S, f: S -> Option<T>, ops: seq<Op<T>>)
    ensures Run(New(s, f), ops).calls <= 1
    ensures Run(New(s, f), ops).calls == 0 <==> Fresh(Run(New(s, f), ops))
    ensures Run(New(s, f), ops).flag == Unborrowed ==> Unwrap(Run(New(s, f), ops)).calls == 1
  {
    RunPreservesValid(New(s, f), ops);
  }

  /** Once initialised, a cell never returns to `PreInit`. */
  lemma {:induction false} InitIsPermanent<S, T>(c: Iou<S, T>, ops: seq<Op<T>>)
    requires c.state.Init?
    ensures Run(c, ops).state.Init?
    decreases |ops|
  {
    if |ops| > 0 {
      InitIsPermanent(Apply(c, ops[0]), ops[1..]);
    }
  }

  /** A corrupted cell (which holds no guards) is left exactly as it is by every operation. */
  lemma {:induction false} CorruptionIsPermanent<S, T>(c: Iou<S, T>, ops: seq<Op<T>>)
    requires Valid(c) && Corrupted(c)
    ensures Run(c, ops) == c
    decreases |ops|
  {
    if |ops| > 0 {
      CorruptionIsPermanent(Apply(c, ops[0]), ops[1..]);
    }
  }

  /** If the initializer panics on the first forcing, that caller sees
      `InitFailed`; after any further operations every operation that needs
      the value fails with `BadState` and `is_init` answers `false`. */
  lemma FailedInitializerIsSticky<S, T>(s: S, f: S -> Option<T>, ops: seq<Op<T>>)
    requires f(s).None?
    ensures Initialize(New(s, f)).result == Err(InitFailed)
    ensures var c := Run(Initialize(New(s, f)).cell, ops);
            && Corrupted(c)
            && IsInit(c) == Ok(false)
            && Initialize(c).result == Err(BadState)
            && Borrow(c).result == Err(BadState)
            && BorrowMut(c).result == Err(BadState)
            && Unwrap(c).result == Err(BadState)
  {
    var c0 := Initialize(New(s, f)).cell;
    CorruptionIsPermanent(c0, ops);
    CorruptedFailsWithBadState(c0);
  }

  /** `ops` contains no write through an exclusive guard. */
  predicate NoAssign<T>(ops: seq<Op<T>>) {
    forall i :: 0 <= i < |ops| ==> !ops[i].OpAssign?
  }

  /** The cell was created by `New(s, f)` and never written: it holds the
      pair, or nothing, or the initializer's value on the seed. */
  ghost predicate FromSeed<S, T>(c: Iou<S, T>, s: S, f: S -> Option<T>) {
    && (Fresh(c) ==> c.state.pending.value == Pending(s, f))
    && (c.state.Init? ==> f(s) == Some(c.state.value))
  }

  lemma {:induction false} RunKeepsSeedValue<S, T>(c: Iou<S, T>, s: S, f: S -> Option<T>, ops: seq<Op<T>>)
    requires FromSeed(c, s, f) && NoAssign(ops)
    ensures FromSeed(Run(c, ops), s, f)
    decreases |ops|
  {
    if |ops| > 0 {
      assert !ops[0].OpAssign?;
      assert NoAssign(ops[1..]) by {
        forall i | 0 <= i < |ops[1..]|
          ensures !ops[1..][i].OpAssign?
        {
          assert ops[1..][i] == ops[i + 1];
        }
      }
      RunKeepsSeedValue(Apply(c, ops[0]), s, f, ops[1..]);
    }
  }

  /** Without writes, whatever value the cell holds is `f(s)`: forcing
      stores exactly the initializer's value on the seed. */
  lemma StoredValueIsInitializerValue<S, T>(s: S, f: S -> Option<T>, ops: seq<Op<T>>)
    requires NoAssign(ops)
    ensures Run(New(s, f), ops).state.Init? ==> f(s) == Some(Run(New(s, f), ops).state.value)
  {
    RunKeepsSeedValue(New(s, f), s, f, ops);
  }

  /** `n` consecutive calls of `init`. */
  function Inits<T>(n: nat): (ops: seq<Op<T>>)
    ensures |ops| == n
    ensures forall i :: 0 <= i < n ==> ops[i] == OpInit
  {
    if n == 0 then [] else [OpInit] + Inits(n - 1)
  }

  lemma {:induction false} InitsOnInitialised<S, T>(c: Iou<S, T>, n: nat)
    requires c.state.Init? && !c.flag.writer
    ensures Run(c, Inits(n)) == c
    decreases n
  {
    if n > 0 {
      assert Inits<T>(n)[1..] == Inits(n - 1);
      InitsOnInitialised(c, n - 1);
    }
  }

  /** Calling `init` n >= 1 times leaves the same cell as calling it once. */
  lemma InitIdempotentN<S, T>(c: Iou<S, T>, n: nat)
    requires Initialize(c).result.Ok? && n >= 1
    ensures Run(c, Inits(n)) == Initialize(c).cell
  {
    var c1 := Initialize(c).cell;
    assert Inits<T>(n)[1..] == Inits(n - 1);
    InitsOnInitialised(c1, n - 1);
  }
}
