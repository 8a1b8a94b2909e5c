/** A lazily initialised cell (the `Iou` type of src/lib.rs).

    A cell starts out holding a seed and a one-shot initializer; the first
    read, write or explicit `init` takes the pair out, applies the
    initializer and caches its value.  The Rust type wraps its state in a
    `RefCell`; its dynamic borrow flag is modelled here as a count of
    outstanding shared guards plus a bit for an outstanding exclusive guard.

    Every operation is a pure step from a cell to a result and a new cell.
    A panic becomes an `Err`: `BadState` for the `expect`/`panic!` paths of
    the library, `InitFailed` for a panic of the initializer itself, and
    `BorrowConflict` for a borrow the `RefCell` refuses.
 */
module IouLib {

  datatype Option<+T> = None | Some(value: T)

  /** Why an operation panicked. */
  datatype Error =
    | BadState        // the seed and initializer are gone and no value was stored
    | InitFailed      // the initializer itself panicked
    | BorrowConflict  // the RefCell refused a shared or an exclusive borrow

  datatype Result<+R> = Ok(value: R) | Err(error: Error)

  /** The seed and initializer captured by `new`.  An initializer that
      panics on a seed is one that maps it to `None`. */
  datatype Pending<!S, T> = Pending(seed: S, f: S -> Option<T>)

  /** The enum inside the RefCell.  `PreInit(None)` is what a panicking
      initializer leaves behind: the pair was taken, no value was stored. */
  datatype IouState<!S, T> = PreInit(pending: Option<Pending<S, T>>) | Init(value: T)

  /** The RefCell's borrow flag: outstanding `Ref` guards, and whether a
      `RefMut` guard is outstanding. */
  datatype BorrowFlag = BorrowFlag(readers: nat, writer: bool)

  const Unborrowed := BorrowFlag(0, false)

  /** The cell.  `calls` counts applications of the initializer; it is
      bookkeeping of the model and has no counterpart in the Rust value. */
  datatype Iou<!S, T> = Iou(state: IouState<S, T>, flag: BorrowFlag, calls: nat)

  /** The result of an operation on a cell, and the cell afterwards. */
  datatype Outcome<R, !S, T> = Outcome(result: Result<R>, cell: Iou<S, T>)

  /** The result of the consuming `unwrap`, and how many times the
      initializer had been applied once the cell is gone. */
  datatype Unwrapped<T> = Unwrapped(result: Result<T>, calls: nat)

  predicate Fresh<S, T>(c: Iou<S, T>) {
    c.state.PreInit? && c.state.pending.Some?
  }

  predicate Corrupted<S, T>(c: Iou<S, T>) {
    c.state.PreInit? && c.state.pending.None?
  }

  predicate Borrowed(flag: BorrowFlag) {
    flag.readers > 0 || flag.writer
  }

  /** What holds of every cell reachable from `New`: the initializer has run
      exactly when the pair is gone, guards exist only on an initialised
      cell, and an exclusive guard excludes every other guard. */
  predicate Valid<S, T>(c: Iou<S, T>) {
    && c.calls == (if Fresh(c) then 0 else 1)
    && (Borrowed(c.flag) ==> c.state.Init?)
    && (c.flag.writer ==> c.flag.readers == 0)
  }

  /** `Iou::new`: store the seed and initializer, run nothing. */
  function New<S, T>(s: S, f: S -> Option<T>): (c: Iou<S, T>)
    ensures Fresh(c) && c.state.pending.value == Pending(s, f)
    ensures c.calls == 0 && c.flag == Unborrowed
    ensures Valid(c)
  {
    Iou(PreInit(Some(Pending(s, f))), Unborrowed, 0)
  }

  /** `is_init`: takes a temporary shared borrow, so it fails while an
      exclusive guard is outstanding; a corrupted cell reports `false`. */
  function IsInit<S, T>(c: Iou<S, T>): (r: Result<bool>)
    ensures r.Err? <==> c.flag.writer
    ensures r.Err? ==> r.error == BorrowConflict
    ensures r.Ok? ==> (r.value <==> c.state.Init?)
  {
    if c.flag.writer then Err(BorrowConflict) else Ok(c.state.Init?)
  }

  /** `init`: if the cell is not yet initialised, take an exclusive borrow,
      take the pair out, apply the initializer and store its value.  The
      temporary guard is released on every path, so the flag is unchanged. */
  function Initialize<S, T>(c: Iou<S, T>): (r: Outcome<(), S, T>)
    ensures r.cell.flag == c.flag
    ensures r.result.Ok? ==> r.cell.state.Init?
    ensures c.state.Init? && !c.flag.writer ==> r == Outcome(Ok(()), c)
    ensures r.result == Err(BorrowConflict)
            <==> c.flag.writer || (!c.state.Init? && c.flag.readers > 0)
    ensures r.result == Err(BadState) <==> Corrupted(c) && !Borrowed(c.flag)
    ensures r.result.Err? && r.result.error != InitFailed ==> r.cell == c
    ensures Fresh(c) && !Borrowed(c.flag) ==>
              var p := c.state.pending.value;
              && r.cell.calls == c.calls + 1
              && (p.f(p.seed).Some? ==> r == Outcome(Ok(()), r.cell.(state := Init(p.f(p.seed).value))))
              && (p.f(p.seed).None? ==> r.result == Err(InitFailed) && Corrupted(r.cell))
    ensures !(Fresh(c) && !Borrowed(c.flag)) ==> r.cell == c
    ensures Valid(c) ==> Valid(r.cell)
  {
    match IsInit(c)
    case Err(e) => Outcome(Err(e), c)
    case Ok(true) => Outcome(Ok(()), c)
    case Ok(false) =>
      if Borrowed(c.flag) then
        Outcome(Err(BorrowConflict), c)
      else
        // the state is not Init, so the `if let PreInit(p)` arm is taken
        match c.state.pending
        case None => Outcome(Err(BadState), c)
        case Some(Pending(s, f)) =>
          var taken := c.(state := PreInit(None), calls := c.calls + 1);
          match f(s)
          case None => Outcome(Err(InitFailed), taken)
          case Some(t) => Outcome(Ok(()), taken.(state := Init(t)))
  }

  /** `borrow`: initialise, then take a shared guard on the value.  The
      `bad state` arm of the mapping closure is kept; `BorrowBadStateOnlyIfCorrupted`
      shows it is never reached. */
  function Borrow<S, T>(c: Iou<S, T>): (r: Outcome<T, S, T>)
    ensures r.result.Ok? ==> r.cell.state == Init(r.result.value)
    ensures r.result.Ok? ==> r.cell.flag == c.flag.(readers := c.flag.readers + 1)
    ensures r.result.Ok? ==> !c.flag.writer
    ensures c.flag.writer ==> r == Outcome(Err(BorrowConflict), c)
    ensures r.result.Err? ==> r.cell.flag == c.flag
    ensures r.cell.calls <= c.calls + 1
    ensures c.state.Init? ==> r.cell.state == c.state
    ensures c.state.Init? && !c.flag.writer ==>
              r == Outcome(Ok(c.state.value), c.(flag := c.flag.(readers := c.flag.readers + 1)))
    ensures Fresh(c) && !Borrowed(c.flag) ==>
              var p := c.state.pending.value;
              && r.cell.calls == c.calls + 1
              && (p.f(p.seed).Some? ==> r.result == Ok(p.f(p.seed).value) && r.cell.flag == BorrowFlag(1, false))
              && (p.f(p.seed).None? ==> r.result == Err(InitFailed) && Corrupted(r.cell))
    ensures Valid(c) ==> Valid(r.cell)
  {
    var i := Initialize(c);
    if i.result.Err? then
      Outcome(Err(i.result.error), i.cell)
    else if i.cell.flag.writer then
      Outcome(Err(BorrowConflict), i.cell)
    else
      match i.cell.state
      case Init(t) => Outcome(Ok(t), i.cell.(flag := i.cell.flag.(readers := i.cell.flag.readers + 1)))
      case PreInit(_) => Outcome(Err(BadState), i.cell)
  }

  /** `borrow_mut`: initialise, then take an exclusive guard on the value;
      the `RefCell` refuses it while any other guard is outstanding. */
  function BorrowMut<S, T>(c: Iou<S, T>): (r: Outcome<T, S, T>)
    ensures r.result.Ok? ==> r.cell.state == Init(r.result.value)
    ensures r.result.Ok? ==> c.flag == Unborrowed && r.cell.flag == BorrowFlag(0, true)
    ensures Borrowed(c.flag) ==> r == Outcome(Err(BorrowConflict), c)
    ensures r.result.Err? ==> r.cell.flag == c.flag
    ensures r.cell.calls <= c.calls + 1
    ensures c.state.Init? ==> r.cell.state == c.state
    ensures c.state.Init? && !Borrowed(c.flag) ==>
              r == Outcome(Ok(c.state.value), c.(flag := BorrowFlag(0, true)))
    ensures Fresh(c) && !Borrowed(c.flag) ==>
              var p := c.state.pending.value;
              && r.cell.calls == c.calls + 1
              && (p.f(p.seed).Some? ==> r.result == Ok(p.f(p.seed).value) && r.cell.flag == BorrowFlag(0, true))
              && (p.f(p.seed).None? ==> r.result == Err(InitFailed) && Corrupted(r.cell))
    ensures Valid(c) ==> Valid(r.cell)
  {
    var i := Initialize(c);
    if i.result.Err? then
      Outcome(Err(i.result.error), i.cell)
    else if Borrowed(i.cell.flag) then
      Outcome(Err(BorrowConflict), i.cell)
    else
      match i.cell.state
      case Init(t) => Outcome(Ok(t), i.cell.(flag := BorrowFlag(0, true)))
      case PreInit(_) => Outcome(Err(BadState), i.cell)
  }

  /** A write `*guard = v` through the outstanding `RefMut` guard. */
  function Assign<S, T>(c: Iou<S, T>, v: T): (r: Iou<S, T>)
    requires c.flag.writer && c.state.Init?
    ensures r.state == Init(v)
    ensures r.flag == c.flag && r.calls == c.calls
    ensures Valid(c) ==> Valid(r)
  {
    c.(state := Init(v))
  }

  /** Dropping one outstanding `Ref` guard. */
  function DropRef<S, T>(c: Iou<S, T>): (r: Iou<S, T>)
    requires c.flag.readers > 0
    ensures r.flag.readers + 1 == c.flag.readers
    ensures r.flag.writer == c.flag.writer && r.state == c.state && r.calls == c.calls
    ensures Valid(c) ==> Valid(r)
  {
    c.(flag := c.flag.(readers := c.flag.readers - 1))
  }

  /** Dropping the outstanding `RefMut` guard. */
  function DropRefMut<S, T>(c: Iou<S, T>): (r: Iou<S, T>)
    requires c.flag.writer
    ensures !r.flag.writer && r.flag.readers == c.flag.readers
    ensures r.state == c.state && r.calls == c.calls
    ensures Valid(c) ==> Valid(r) && r.flag == Unborrowed
  {
    c.(flag := c.flag.(writer := false))
  }

  /** `unwrap`: consume the cell.  A fresh cell applies its initializer and
      hands the value over without storing it; an initialised cell hands
      over its value.  Moving the cell needs every guard to be gone. */
  function Unwrap<S, T>(c: Iou<S, T>): (r: Unwrapped<T>)
    requires c.flag == Unborrowed
    ensures c.state.Init? ==> r == Unwrapped(Ok(c.state.value), c.calls)
    ensures Corrupted(c) ==> r == Unwrapped(Err(BadState), c.calls)
    ensures Fresh(c) ==>
              var p := c.state.pending.value;
              && r.calls == c.calls + 1
              && (p.f(p.seed).Some? ==> r.result == Ok(p.f(p.seed).value))
              && (p.f(p.seed).None? ==> r.result == Err(InitFailed))
    ensures Valid(c) ==> r.calls == 1
  {
    match c.state
    case PreInit(Some(Pending(s, f))) =>
      var calls := c.calls + 1;
      (match f(s)
       case Some(t) => Unwrapped(Ok(t), calls)
       case None => Unwrapped(Err(InitFailed), calls))
    case Init(t) => Unwrapped(Ok(t), c.calls)
    case PreInit(None) => Unwrapped(Err(BadState), c.calls)
  }

  // ---------------------------------------------------------------------
  // Properties of single operations
  // ---------------------------------------------------------------------

  /** A new cell is not initialised and its initializer has not run. */
  lemma NewIsPending<S, T>(s: S, f: S -> Option<T>)
    ensures IsInit(New(s, f)) == Ok(false)
    ensures New(s, f).calls == 0
  {
  }

  /** Initialising a new cell applies the initializer once to the seed: on
      success the cell holds its value, on failure it is corrupted. */
  lemma InitializeNew<S, T>(s: S, f: S -> Option<T>)
    ensures var r := Initialize(New(s, f));
            && r.cell.calls == 1
            && r.cell.flag == Unborrowed
            && (f(s).Some? ==> r.result == Ok(()) && r.cell.state == Init(f(s).value)
                               && IsInit(r.cell) == Ok(true))
            && (f(s).None? ==> r.result == Err(InitFailed) && Corrupted(r.cell)
                               && IsInit(r.cell) == Ok(false))
  {
  }

  /** A second `init` after a successful one changes nothing. */
  lemma InitializeIdempotent<S, T>(c: Iou<S, T>)
    requires Initialize(c).result.Ok?
    ensures Initialize(Initialize(c).cell) == Outcome(Ok(()), Initialize(c).cell)
  {
  }

  /** A value written through the exclusive guard is what the next shared
      borrow returns, and nothing but the value changes. */
  lemma AssignThenBorrow<S, T>(c: Iou<S, T>, v: T)
    requires Valid(c) && c.flag.writer && c.state.Init?
    ensures var d := DropRefMut(Assign(c, v));
            && d == c.(state := Init(v), flag := Unborrowed)
            && Borrow(d) == Outcome(Ok(v), d.(flag := BorrowFlag(1, false)))
  {
  }

  /** A value written through the guard `borrow_mut` hands out is what the
      next `borrow` returns, whether or not `borrow_mut` had to initialise. */
  lemma BorrowMutAssignThenBorrow<S, T>(c: Iou<S, T>, v: T)
    requires Valid(c) && BorrowMut(c).result.Ok?
    ensures Borrow(DropRefMut(Assign(BorrowMut(c).cell, v))).result == Ok(v)
  {
  }

  /** The `bad state` panic inside `borrow` and `borrow_mut` comes only from
      the `expect` of `init` on a corrupted cell: the arms of the mapping
      closures that panic are never taken. */
  lemma BorrowBadStateOnlyIfCorrupted<S, T>(c: Iou<S, T>)
    ensures Borrow(c).result == Err(BadState) <==> Corrupted(c) && !Borrowed(c.flag)
    ensures BorrowMut(c).result == Err(BadState) <==> Corrupted(c) && !Borrowed(c.flag)
    ensures Initialize(c).result.Ok? ==> Borrow(c).result == Ok(Initialize(c).cell.state.value)
  {
  }

  /** Once the initializer has failed, every operation that needs the value
      fails with `BadState`, while `is_init` keeps answering `false`. */
  lemma CorruptedFailsWithBadState<S, T>(c: Iou<S, T>)
    requires Valid(c) && Corrupted(c)
    ensures IsInit(c) == Ok(false)
    ensures Initialize(c) == Outcome(Err(BadState), c)
    ensures Borrow(c) == Outcome(Err(BadState), c)
    ensures BorrowMut(c) == Outcome(Err(BadState), c)
    ensures Unwrap(c).result == Err(BadState)
  {
  }

  /** The RefCell's rules: an exclusive guard excludes every other borrow,
      a shared guard excludes exclusive ones, and shared guards coexist. */
  lemma BorrowExclusivity<S, T>(c: Iou<S, T>)
    requires Valid(c)
    ensures c.flag.writer ==> Borrow(c) == Outcome(Err(BorrowConflict), c)
    ensures c.flag.writer ==> BorrowMut(c) == Outcome(Err(BorrowConflict), c)
    ensures c.flag.readers > 0 ==> BorrowMut(c) == Outcome(Err(BorrowConflict), c)
    ensures c.flag.readers > 0 ==>
              Borrow(c) == Outcome(Ok(c.state.value), c.(flag := c.flag.(readers := c.flag.readers + 1)))
  {
  }

  /** Consuming a never-forced cell gives what a borrow of it would give,
      and what consuming it after a successful `init` gives. */
  lemma UnwrapMatchesBorrow<S, T>(s: S, f: S -> Option<T>)
    ensures Unwrap(New(s, f)).result == Borrow(New(s, f)).result
    ensures Unwrap(New(s, f)).calls == Borrow(New(s, f)).cell.calls
    ensures Initialize(New(s, f)).result.Ok? ==>
              Unwrap(Initialize(New(s, f)).cell) == Unwrap(New(s, f))
  {
  }
}
