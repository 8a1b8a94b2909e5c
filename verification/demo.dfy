/** The scenario of examples/demo.rs: a cell whose seed is "hello" and whose
    initializer collects the characters of its seed into a set. */
module Demo {
  import opened IouLib

  /** The set of characters of a string (`s.chars().collect()`). */
  function CharSet(s: string): (r: set<char>)
    ensures forall ch :: ch in r <==> ch in s
  {
    if |s| == 0 then {} else {s[0]} + CharSet(s[1..])
  }

  /** `strchars` of the demo: it never panics. */
  function StrChars(s: string): Option<set<char>> {
    Some(CharSet(s))
  }

  /** The steps of the demo's `main` on any seed whose initializer yields
      a set: borrow, remove 'l' through an exclusive guard, borrow twice at
      once, then consume.  Every view after the write sees the write, and
      the initializer runs once. */
  method DemoSteps<S>(s: S, f: S -> Option<set<char>>)
    returns (first: set<char>, second: set<char>, third: set<char>, last: set<char>, calls: nat)
    requires f(s).Some?
    ensures first == f(s).value
    ensures second == f(s).value - {'l'} && third == second && last == second
    ensures calls == 1
  {
    var chars := f(s).value;
    InitializeNew(s, f);

    var h := Borrow(New(s, f));
    assert h == Outcome(Ok(chars), Iou(Init(chars), BorrowFlag(1, false), 1));
    first := h.result.value;
    var c := DropRef(h.cell);

    var m := BorrowMut(c);
    assert m == Outcome(Ok(chars), Iou(Init(chars), BorrowFlag(0, true), 1));
    var edited := m.result.value - {'l'};
    c := DropRefMut(Assign(m.cell, edited));

    var r1 := Borrow(c);
    var r2 := Borrow(r1.cell);
    assert r2 == Outcome(Ok(edited), Iou(Init(edited), BorrowFlag(2, false), 1));
    second := r1.result.value;
    third := r2.result.value;
    c := DropRef(DropRef(r2.cell));

    var u := Unwrap(c);
    last := u.result.value;
    calls := u.calls;
  }

  /** examples/demo.rs itself: the first borrow sees {'h','e','l','o'},
      every later view and the consumed value are {'h','e','o'}. */
  method HelloDemo() returns (first: set<char>, second: set<char>, third: set<char>, last: set<char>, calls: nat)
    ensures first == {'h', 'e', 'l', 'o'}
    ensures second == {'h', 'e', 'o'} && third == second && last == second
    ensures calls == 1
  {
    var hello := "hello";
    assert CharSet(hello) == {'h', 'e', 'l', 'o'};
    first, second, third, last, calls := DemoSteps(hello, StrChars);
  }
}
