/** The unified diff of two line lists: minimal edit scripts, hunks, and what patching them yields. */
module Diff {
  import opened Rules

  type Line = string

  datatype Kind = Keep | Del | Ins

  datatype Op = Op(kind: Kind, line: Line)

  // ---- edit scripts -----------------------------------------------------------------------------

  /** The lines a script reads. */
  function Old(ops: seq<Op>): seq<Line> {
    if ops == [] then []
    else Old(ops[..|ops| - 1]) + if ops[|ops| - 1].kind == Ins then [] else [ops[|ops| - 1].line]
  }

  /** The lines a script writes. */
  function New(ops: seq<Op>): seq<Line> {
    if ops == [] then []
    else New(ops[..|ops| - 1]) + if ops[|ops| - 1].kind == Del then [] else [ops[|ops| - 1].line]
  }

  ghost predicate Edits(ops: seq<Op>, a: seq<Line>, b: seq<Line>) {
    Old(ops) == a && New(ops) == b
  }

  /** The number of added and removed lines. */
  function Cost(ops: seq<Op>): nat {
    if ops == [] then 0
    else Cost(ops[..|ops| - 1]) + if ops[|ops| - 1].kind == Keep then 0 else 1
  }

  function Kept(ops: seq<Op>): nat {
    if ops == [] then 0
    else Kept(ops[..|ops| - 1]) + if ops[|ops| - 1].kind == Keep then 1 else 0
  }

  lemma {:induction false} OldConcat(x: seq<Op>, y: seq<Op>)
    ensures Old(x + y) == Old(x) + Old(y)
  {
    if y == [] {
      assert x + y == x && Old(x) + [] == Old(x);
    } else {
      var n := |y| - 1;
      assert (x + y)[..|x| + n] == x + y[..n];
      OldConcat(x, y[..n]);
      Assoc(Old(x), Old(y[..n]), if y[n].kind == Ins then [] else [y[n].line]);
    }
  }

  lemma {:induction false} NewConcat(x: seq<Op>, y: seq<Op>)
    ensures New(x + y) == New(x) + New(y)
  {
    if y == [] {
      assert x + y == x && New(x) + [] == New(x);
    } else {
      var n := |y| - 1;
      assert (x + y)[..|x| + n] == x + y[..n];
      NewConcat(x, y[..n]);
      Assoc(New(x), New(y[..n]), if y[n].kind == Del then [] else [y[n].line]);
    }
  }

  lemma SidesConcat(x: seq<Op>, y: seq<Op>)
    ensures Old(x + y) == Old(x) + Old(y) && New(x + y) == New(x) + New(y)
  {
    OldConcat(x, y);
    NewConcat(x, y);
  }

  lemma Assoc(a: seq<Line>, b: seq<Line>, c: seq<Line>)
    ensures (a + b) + c == a + (b + c)
  {
  }

  lemma {:induction false} CountsConcat(x: seq<Op>, y: seq<Op>)
    ensures Cost(x + y) == Cost(x) + Cost(y) && Kept(x + y) == Kept(x) + Kept(y)
  {
    if y == [] {
      assert x + y == x;
    } else {
      var n := |y| - 1;
      assert (x + y)[..|x| + n] == x + y[..n];
      CountsConcat(x, y[..n]);
    }
  }

  /** Every script costs the lines of both sides less twice the kept ones. */
  lemma {:induction false} CostIs(ops: seq<Op>)
    ensures Cost(ops) + 2 * Kept(ops) == |Old(ops)| + |New(ops)|
  {
    if ops != [] {
      CostIs(ops[..|ops| - 1]);
    }
  }

  // ---- the longest common subsequence -------------------------------------------------------------

  /** Its length for the suffixes a[i..] and b[j..]. */
  function Lcs(a: seq<Line>, b: seq<Line>, i: nat, j: nat): nat
    requires i <= |a| && j <= |b|
    decreases |a| - i + |b| - j
  {
    if i == |a| || j == |b| then 0
    else if a[i] == b[j] then Lcs(a, b, i + 1, j + 1) + 1
    else if Lcs(a, b, i + 1, j) >= Lcs(a, b, i, j + 1) then Lcs(a, b, i + 1, j)
    else Lcs(a, b, i, j + 1)
  }

  /** Dropping one line loses at most one and gains nothing. */
  lemma {:induction false} LcsBounds(a: seq<Line>, b: seq<Line>, i: nat, j: nat)
    requires i <= |a| && j <= |b|
    ensures i < |a| ==> Lcs(a, b, i + 1, j) <= Lcs(a, b, i, j) <= Lcs(a, b, i + 1, j) + 1
    ensures j < |b| ==> Lcs(a, b, i, j + 1) <= Lcs(a, b, i, j) <= Lcs(a, b, i, j + 1) + 1
    decreases |a| - i + |b| - j
  {
    if i < |a| && j < |b| {
      LcsBounds(a, b, i + 1, j);
      LcsBounds(a, b, i, j + 1);
    }
  }

  /** One operation keeps no more than the subsequence loses by it. */
  lemma LcsStep(op: Op, a: seq<Line>, b: seq<Line>, i: nat, j: nat)
    requires i <= |a| && j <= |b|
    requires op.kind != Ins ==> i < |a| && a[i] == op.line
    requires op.kind != Del ==> j < |b| && b[j] == op.line
    ensures var i2, j2 := if op.kind == Ins then i else i + 1, if op.kind == Del then j else j + 1;
      Lcs(a, b, i2, j2) + (if op.kind == Keep then 1 else 0) <= Lcs(a, b, i, j)
  {
    LcsBounds(a, b, i, j);
  }

  lemma ReadHead(ops: seq<Op>, a: seq<Line>, i: nat)
    requires ops != [] && i <= |a| && Old(ops) == a[i..]
    ensures ops[0].kind != Ins ==> i < |a| && a[i] == ops[0].line && Old(ops[1..]) == a[i + 1..]
    ensures ops[0].kind == Ins ==> Old(ops[1..]) == a[i..]
  {
    assert ops == [ops[0]] + ops[1..];
    OldConcat([ops[0]], ops[1..]);
    OneOp(ops[0]);
    HeadOf(Old([ops[0]]), Old(ops[1..]), a, i);
  }

  lemma WrittenHead(ops: seq<Op>, b: seq<Line>, j: nat)
    requires ops != [] && j <= |b| && New(ops) == b[j..]
    ensures ops[0].kind != Del ==> j < |b| && b[j] == ops[0].line && New(ops[1..]) == b[j + 1..]
    ensures ops[0].kind == Del ==> New(ops[1..]) == b[j..]
  {
    assert ops == [ops[0]] + ops[1..];
    NewConcat([ops[0]], ops[1..]);
    OneOp(ops[0]);
    HeadOf(New([ops[0]]), New(ops[1..]), b, j);
  }

  /** The first operation reads and writes the heads of what is left. */
  lemma HeadSides(ops: seq<Op>, a: seq<Line>, b: seq<Line>, i: nat, j: nat)
    requires ops != [] && i <= |a| && j <= |b| && Edits(ops, a[i..], b[j..])
    ensures var op, rest := ops[0], ops[1..];
      && (op.kind != Ins ==> i < |a| && a[i] == op.line) && (op.kind != Del ==> j < |b| && b[j] == op.line)
      && Edits(rest, a[if op.kind == Ins then i else i + 1..], b[if op.kind == Del then j else j + 1..])
      && Kept(ops) == (if op.kind == Keep then 1 else 0) + Kept(rest)
  {
    ReadHead(ops, a, i);
    WrittenHead(ops, b, j);
    assert ops == [ops[0]] + ops[1..];
    CountsConcat([ops[0]], ops[1..]);
    OneOp(ops[0]);
  }

  /** No script keeps more lines than the longest common subsequence has. */
  lemma {:induction false} KeptAtMost(ops: seq<Op>, a: seq<Line>, b: seq<Line>, i: nat, j: nat)
    requires i <= |a| && j <= |b| && Edits(ops, a[i..], b[j..])
    ensures Kept(ops) <= Lcs(a, b, i, j)
    decreases |ops|
  {
    if ops != [] {
      HeadSides(ops, a, b, i, j);
      LcsStep(ops[0], a, b, i, j);
      KeptAtMost(ops[1..], a, b, if ops[0].kind == Ins then i else i + 1, if ops[0].kind == Del then j else j + 1);
    }
  }

  lemma HeadOf(x: seq<Line>, y: seq<Line>, a: seq<Line>, i: nat)
    requires i <= |a| && x + y == a[i..]
    ensures i + |x| <= |a| && y == a[i + |x|..]
    ensures x != [] ==> x[0] == a[i]
  {
    assert (x + y)[|x|..] == y;
    assert a[i..][|x|..] == a[i + |x|..];
    if x != [] {
      assert (x + y)[0] == x[0];
    }
  }

  // ---- the script of the code ----------------------------------------------------------------------

  /** Follows the table: equal lines are kept, ties remove first. */
  function Script(a: seq<Line>, b: seq<Line>, i: nat, j: nat): seq<Op>
    requires i <= |a| && j <= |b|
    decreases |a| - i + |b| - j
  {
    if i < |a| && j < |b| then
      if a[i] == b[j] then [Op(Keep, a[i])] + Script(a, b, i + 1, j + 1)
      else if Lcs(a, b, i + 1, j) >= Lcs(a, b, i, j + 1) then [Op(Del, a[i])] + Script(a, b, i + 1, j)
      else [Op(Ins, b[j])] + Script(a, b, i, j + 1)
    else if i < |a| then [Op(Del, a[i])] + Script(a, b, i + 1, j)
    else if j < |b| then [Op(Ins, b[j])] + Script(a, b, i, j + 1)
    else []
  }

  lemma OneOp(op: Op)
    ensures Old([op]) == if op.kind == Ins then [] else [op.line]
    ensures New([op]) == if op.kind == Del then [] else [op.line]
    ensures Kept([op]) == if op.kind == Keep then 1 else 0
  {
    assert [op][..0] == [];
  }

  /** One operation in front of a script for the lists behind it. */
  lemma ConsEdits(op: Op, rest: seq<Op>, a: seq<Line>, b: seq<Line>, i: nat, j: nat)
    requires op.kind != Ins ==> i < |a| && op.line == a[i]
    requires op.kind != Del ==> j < |b| && op.line == b[j]
    requires i <= |a| && j <= |b|
    requires Edits(rest, a[if op.kind == Ins then i else i + 1..], b[if op.kind == Del then j else j + 1..])
    ensures Edits([op] + rest, a[i..], b[j..])
    ensures Kept([op] + rest) == Kept(rest) + if op.kind == Keep then 1 else 0
  {
    SidesConcat([op], rest);
    CountsConcat([op], rest);
    OneOp(op);
    if op.kind != Ins {
      Uncons(a, i);
    }
    if op.kind != Del {
      Uncons(b, j);
    }
    assert [] + Old(rest) == Old(rest) && [] + New(rest) == New(rest);
  }

  lemma Uncons(a: seq<Line>, i: nat)
    requires i < |a|
    ensures a[i..] == [a[i]] + a[i + 1..]
  {
  }

  lemma {:induction false} ScriptEdits(a: seq<Line>, b: seq<Line>, i: nat, j: nat)
    requires i <= |a| && j <= |b|
    ensures Edits(Script(a, b, i, j), a[i..], b[j..])
    ensures Kept(Script(a, b, i, j)) == Lcs(a, b, i, j)
    decreases |a| - i + |b| - j
  {
    if i < |a| || j < |b| {
      var op := FirstOp(a, b, i, j);
      var i2, j2 := if op.kind == Ins then i else i + 1, if op.kind == Del then j else j + 1;
      ScriptEdits(a, b, i2, j2);
      ConsEdits(op, Script(a, b, i2, j2), a, b, i, j);
    }
  }

  function FirstOp(a: seq<Line>, b: seq<Line>, i: nat, j: nat): (op: Op)
    requires i <= |a| && j <= |b| && (i < |a| || j < |b|)
    ensures op.kind != Ins ==> i < |a| && op.line == a[i]
    ensures op.kind != Del ==> j < |b| && op.line == b[j]
    ensures var i2, j2 := if op.kind == Ins then i else i + 1, if op.kind == Del then j else j + 1;
      Script(a, b, i, j) == [op] + Script(a, b, i2, j2)
      && Lcs(a, b, i, j) == Lcs(a, b, i2, j2) + if op.kind == Keep then 1 else 0
  {
    if i < |a| && j < |b| then
      if a[i] == b[j] then Op(Keep, a[i])
      else if Lcs(a, b, i + 1, j) >= Lcs(a, b, i, j + 1) then Op(Del, a[i])
      else Op(Ins, b[j])
    else if i < |a| then Op(Del, a[i])
    else Op(Ins, b[j])
  }

  /** The edit script turns a into b with the fewest added and removed lines. */
  lemma ScriptOptimal(a: seq<Line>, b: seq<Line>, other: seq<Op>)
    requires Edits(other, a, b)
    ensures Edits(Script(a, b, 0, 0), a, b) && Cost(Script(a, b, 0, 0)) <= Cost(other)
  {
    assert a[0..] == a && b[0..] == b;
    ScriptEdits(a, b, 0, 0);
    KeptAtMost(other, a, b, 0, 0);
    CostIs(Script(a, b, 0, 0));
    CostIs(other);
  }

  /** Equal lines are kept, and where some best script begins with a removal the code's does too. */
  lemma RemovesFirst(a: seq<Line>, b: seq<Line>, i: nat, j: nat, other: seq<Op>)
    requires i < |a| && j < |b| && other != [] && Edits(other, a[i..], b[j..])
    requires Cost(other) == Cost(Script(a, b, i, j))
    ensures Script(a, b, i, j) != []
    ensures a[i] == b[j] ==> Script(a, b, i, j)[0] == Op(Keep, a[i])
    ensures a[i] != b[j] && other[0].kind == Del ==> Script(a, b, i, j)[0] == Op(Del, a[i])
    ensures a[i] != b[j] && other[0].kind == Ins ==> Script(a, b, i, j)[0].kind != Keep
  {
    ScriptEdits(a, b, i, j);
    CostIs(other);
    CostIs(Script(a, b, i, j));
    HeadSides(other, a, b, i, j);
    LcsBounds(a, b, i, j);
    if other[0].kind == Del {
      KeptAtMost(other[1..], a, b, i + 1, j);
    }
  }

  // ---- the code ---------------------------------------------------------------------------------------

  /** Row i of the table is final. */
  ghost predicate RowDone(d: array2<nat>, a: seq<Line>, b: seq<Line>, i: nat)
    requires d.Length0 == |a| + 1 && d.Length1 == |b| + 1 && i <= |a|
    reads d
  {
    forall j :: 0 <= j <= |b| ==> d[i, j] == Lcs(a, b, i, j)
  }

  function Cell(same: bool, diagonal: nat, down: nat, right: nat): nat {
    if same then diagonal + 1 else if down >= right then down else right
  }

  lemma LcsCell(a: seq<Line>, b: seq<Line>, i: nat, j: nat)
    requires i < |a| && j < |b|
    ensures Lcs(a, b, i, j) == Cell(a[i] == b[j], Lcs(a, b, i + 1, j + 1), Lcs(a, b, i + 1, j), Lcs(a, b, i, j + 1))
  {
  }

  method FillRow(d: array2<nat>, a: seq<Line>, b: seq<Line>, i: nat)
    requires d.Length0 == |a| + 1 && d.Length1 == |b| + 1 && i < |a|
    requires RowDone(d, a, b, i + 1) && d[i, |b|] == 0
    modifies d
    ensures RowDone(d, a, b, i)
    ensures forall x, y :: 0 <= x <= |a| && x != i && 0 <= y <= |b| ==> d[x, y] == old(d[x, y])
  {
    for j := |b| downto 0
      invariant RowDone(d, a, b, i + 1)
      invariant forall y :: j <= y <= |b| ==> d[i, y] == Lcs(a, b, i, y)
      invariant forall x, y :: 0 <= x <= |a| && x != i && 0 <= y <= |b| ==> d[x, y] == old(d[x, y])
    {
      LcsCell(a, b, i, j);
      d[i, j] := Cell(a[i] == b[j], d[i + 1, j + 1], d[i + 1, j], d[i, j + 1]);
    }
  }

  method FillTable(a: seq<Line>, b: seq<Line>) returns (d: array2<nat>)
    ensures fresh(d) && d.Length0 == |a| + 1 && d.Length1 == |b| + 1
    ensures forall i :: 0 <= i <= |a| ==> RowDone(d, a, b, i)
  {
    d := new nat[|a| + 1, |b| + 1]((i, j) => 0);
    for i := |a| downto 0
      invariant d.Length0 == |a| + 1 && d.Length1 == |b| + 1
      invariant forall x, y :: i <= x <= |a| && 0 <= y <= |b| ==> d[x, y] == Lcs(a, b, x, y)
      invariant forall x :: 0 <= x < i ==> d[x, |b|] == 0
    {
      FillRow(d, a, b, i);
    }
  }

  /** The position after one operation. */
  function Next(op: Op, i: nat, j: nat): (nat, nat) {
    (if op.kind == Ins then i else i + 1, if op.kind == Del then j else j + 1)
  }

  /** What the table says to do at a position inside both lists. */
  method Choose(d: array2<nat>, a: seq<Line>, b: seq<Line>, i: nat, j: nat) returns (op: Op)
    requires i < |a| && j < |b| && d.Length0 == |a| + 1 && d.Length1 == |b| + 1
    requires RowDone(d, a, b, i) && RowDone(d, a, b, i + 1)
    ensures Script(a, b, i, j) == [op] + Script(a, b, Next(op, i, j).0, Next(op, i, j).1)
  {
    if a[i] == b[j] {
      op := Op(Keep, a[i]);
    } else if d[i + 1, j] >= d[i, j + 1] {
      op := Op(Del, a[i]);
    } else {
      op := Op(Ins, b[j]);
    }
  }

  method EditScript(a: seq<Line>, b: seq<Line>) returns (ops: seq<Op>)
    ensures ops == Script(a, b, 0, 0)
  {
    var d := FillTable(a, b);
    ops := [];
    ghost var all := Script(a, b, 0, 0);
    var i: nat, j: nat := 0, 0;
    assert [] + all == all;
    while i < |a| && j < |b|
      invariant forall x :: 0 <= x <= |a| ==> RowDone(d, a, b, x)
      invariant i <= |a| && j <= |b| && ops + Script(a, b, i, j) == all
      decreases |a| - i + |b| - j
    {
      var op := Choose(d, a, b, i, j);
      Peel(ops, op, Script(a, b, Next(op, i, j).0, Next(op, i, j).1));
      ops := ops + [op];
      i, j := Next(op, i, j).0, Next(op, i, j).1;
    }
    while i < |a|
      invariant i <= |a| && j <= |b| && (i == |a| || j == |b|) && ops + Script(a, b, i, j) == all
    {
      Peel(ops, Op(Del, a[i]), Script(a, b, i + 1, j));
      ops := ops + [Op(Del, a[i])];
      i := i + 1;
    }
    while j < |b|
      invariant j <= |b| && ops + Script(a, b, i, j) == all
    {
      Peel(ops, Op(Ins, b[j]), Script(a, b, i, j + 1));
      ops := ops + [Op(Ins, b[j])];
      j := j + 1;
    }
    assert ops + [] == ops;
  }

  lemma Peel(ops: seq<Op>, op: Op, rest: seq<Op>)
    ensures ops + ([op] + rest) == (ops + [op]) + rest
  {
  }

  // ---- hunks ------------------------------------------------------------------------------------------

  const CTX: nat := 3

  /** A stretch of operations that is printed together. */
  datatype Range = Range(start: nat, end: nat)

  predicate IsChange(op: Op) {
    op.kind != Keep
  }

  ghost predicate Quiet(ops: seq<Op>, from: nat, to: nat)
    requires from <= to <= |ops|
  {
    forall i :: from <= i < to ==> !IsChange(ops[i])
  }

  predicate InRange(r: Range, i: nat) {
    r.start <= i < r.end
  }

  /** Every change up to k is in some range. */
  ghost predicate Covered(ops: seq<Op>, ranges: seq<Range>, k: nat)
    requires k <= |ops|
  {
    forall i :: 0 <= i < k && IsChange(ops[i]) ==> exists h :: 0 <= h < |ranges| && InRange(ranges[h], i)
  }

  /** Non-empty, in order, and with something between any two. */
  ghost predicate Ordered(ops: seq<Op>, ranges: seq<Range>) {
    && (forall h :: 0 <= h < |ranges| ==> ranges[h].start < ranges[h].end <= |ops|)
    && (forall h :: 0 < h < |ranges| ==> ranges[h - 1].end < ranges[h].start)
  }

  /** Seven unchanged operations from i on. */
  predicate Still(ops: seq<Op>, i: nat)
    requires i + 7 <= |ops|
  {
    forall c :: i <= c < i + 7 ==> !IsChange(ops[c])
  }

  /** No more than six unchanged operations in a row. */
  ghost predicate Dense(ops: seq<Op>, from: nat, to: nat)
    requires from <= to <= |ops|
  {
    forall i :: from <= i <= to - 7 ==> !Still(ops, i)
  }

  lemma DenseMore(ops: seq<Op>, from: nat, end: nat, p: nat)
    requires from <= end <= p < |ops| && Dense(ops, from, end)
    requires p > end ==> end > from && IsChange(ops[end - 1]) && p - end <= 6
    ensures Dense(ops, from, p) && (IsChange(ops[p]) ==> Dense(ops, from, p + 1))
  {
    forall i | from <= i <= p + 1 - 7 && (i + 7 <= p || IsChange(ops[p])) ensures !Still(ops, i) {
      if i + 7 <= end {
        assert Dense(ops, from, end);
      } else if i + 7 <= p {
        assert i <= end - 1 < i + 7;
      } else {
        assert i <= p < i + 7;
      }
    }
  }

  /** Three operations before, or the start. */
  function Back(k: nat): nat {
    if k < 3 then 0 else k - 3
  }

  /** From a change to a change, with three unchanged operations on either side, or as many as
      there are. */
  ghost predicate Framed(ops: seq<Op>, r: Range, first: nat, last: nat) {
    && r.start <= first <= last < r.end <= |ops| && IsChange(ops[first]) && IsChange(ops[last])
    && Quiet(ops, r.start, first) && Quiet(ops, last + 1, r.end) && Dense(ops, first, last)
    && r.start == Back(first)
    && r.end == (if last + 4 < |ops| then last + 4 else |ops|)
  }

  ghost predicate IsFramed(ops: seq<Op>, r: Range) {
    exists first, last :: Framed(ops, r, first, last)
  }

  ghost predicate AllFramed(ops: seq<Op>, ranges: seq<Range>) {
    forall h :: 0 <= h < |ranges| ==> IsFramed(ops, ranges[h])
  }

  function LastEnd(ranges: seq<Range>): nat {
    if ranges == [] then 0 else ranges[|ranges| - 1].end
  }

  /** Extends a hunk while changes follow each other by at most twice the context. */
  method FindEnd(ops: seq<Op>, k: nat) returns (end: nat)
    requires k < |ops| && IsChange(ops[k])
    ensures k < end <= |ops| && IsChange(ops[end - 1]) && Dense(ops, k, end - 1)
    ensures forall c :: end <= c < |ops| && IsChange(ops[c]) ==> c > end + 2 * CTX
  {
    end := k;
    while end < |ops|
      invariant k <= end <= |ops| && (end == k ==> IsChange(ops[end]))
      invariant Dense(ops, k, end) && (end > k && !IsChange(ops[end - 1]) ==> end < |ops| && IsChange(ops[end]))
      decreases |ops| - end
    {
      if IsChange(ops[end]) {
        DenseMore(ops, k, end, end);
        end := end + 1;
        continue;
      }
      var p := end;
      while p < |ops| && !IsChange(ops[p])
        invariant end <= p <= |ops| && Quiet(ops, end, p)
      {
        p := p + 1;
      }
      if p - end <= 2 * CTX && p < |ops| {
        DenseMore(ops, k, end, p);
        end := p;
        continue;
      }
      return;
    }
  }

  /** The first change at or after k, or the end. */
  method SkipKept(ops: seq<Op>, k: nat) returns (n: nat)
    requires k <= |ops|
    ensures k <= n <= |ops| && Quiet(ops, k, n) && (n < |ops| ==> IsChange(ops[n]))
  {
    n := k;
    while n < |ops| && !IsChange(ops[n])
      invariant k <= n <= |ops| && Quiet(ops, k, n)
    {
      n := n + 1;
    }
  }

  /** The hunk around the change at k, and the next change behind it. */
  method NextRange(ops: seq<Op>, k: nat) returns (r: Range, next: nat)
    requires k < |ops| && IsChange(ops[k]) && Quiet(ops, Back(k), k)
    ensures r.start == Back(k) <= k < r.end <= next <= |ops|
    ensures Quiet(ops, r.end, next) && (next < |ops| ==> IsChange(ops[next]) && next > r.end + CTX && Quiet(ops, Back(next), next))
    ensures IsFramed(ops, r)
  {
    var start := if k < CTX then 0 else k - CTX;
    var end := FindEnd(ops, k);
    var stop := if end + CTX < |ops| then end + CTX else |ops|;
    next := SkipKept(ops, stop);
    r := Range(start, stop);
    assert Framed(ops, r, k, end - 1);
  }

  /** Everything in front of the change at k is in the hunks so far. */
  ghost predicate Found(ops: seq<Op>, ranges: seq<Range>, k: nat) {
    && k <= |ops| && Ordered(ops, ranges) && Covered(ops, ranges, k) && AllFramed(ops, ranges) && LastEnd(ranges) <= k
    && (k < |ops| ==> IsChange(ops[k]) && Quiet(ops, Back(k), k) && (ranges != [] ==> k > LastEnd(ranges) + CTX))
  }

  lemma FoundMore(ops: seq<Op>, ranges: seq<Range>, r: Range, k: nat, next: nat)
    requires Found(ops, ranges, k) && r.start == Back(k) <= k < r.end <= next <= |ops| && IsFramed(ops, r)
    requires Quiet(ops, r.end, next) && (next < |ops| ==> IsChange(ops[next]) && next > r.end + CTX && Quiet(ops, Back(next), next))
    ensures Found(ops, ranges + [r], next)
  {
    CoverMore(ops, ranges, r, k, next);
    OrderedMore(ops, ranges, r);
  }

  method FindRanges(ops: seq<Op>) returns (ranges: seq<Range>)
    ensures Ordered(ops, ranges) && Covered(ops, ranges, |ops|) && AllFramed(ops, ranges)
  {
    ranges := [];
    var k := SkipKept(ops, 0);
    while k < |ops|
      invariant Found(ops, ranges, k)
      decreases |ops| - k
    {
      var r, next := NextRange(ops, k);
      FoundMore(ops, ranges, r, k, next);
      ranges := ranges + [r];
      k := next;
    }
  }

  lemma OrderedMore(ops: seq<Op>, ranges: seq<Range>, r: Range)
    requires Ordered(ops, ranges) && r.start < r.end <= |ops| && (ranges != [] ==> LastEnd(ranges) < r.start)
    ensures Ordered(ops, ranges + [r])
  {
  }

  lemma CoverMore(ops: seq<Op>, ranges: seq<Range>, r: Range, k: nat, next: nat)
    requires k <= next <= |ops| && r.start <= k && r.end <= next && Covered(ops, ranges, k) && Quiet(ops, r.end, next)
    ensures Covered(ops, ranges + [r], next)
  {
    var all := ranges + [r];
    forall i | 0 <= i < next && IsChange(ops[i]) ensures exists h :: 0 <= h < |all| && InRange(all[h], i) {
      if i < k {
        var h :| 0 <= h < |ranges| && InRange(ranges[h], i);
        assert InRange(all[h], i);
      } else {
        assert InRange(all[|ranges|], i);
      }
    }
  }

  // ---- printing and patching -----------------------------------------------------------------------

  /** A printed hunk: start and count on both sides, then the operations. */
  datatype Hunk = Hunk(aDisp: nat, aCount: nat, bDisp: nat, bCount: nat, body: seq<Op>)

  /** Line numbers count from one, except for a side with no lines. */
  function Shown(start: nat, count: nat): nat {
    if count == 0 then start else start + 1
  }

  function HunkOf(ops: seq<Op>, r: Range): Hunk
    requires r.start <= r.end <= |ops|
  {
    var before, body := ops[..r.start], ops[r.start..r.end];
    Hunk(Shown(|Old(before)|, |Old(body)|), |Old(body)|, Shown(|New(before)|, |New(body)|), |New(body)|, body)
  }

  method CountSides(ops: seq<Op>) returns (olds: nat, news: nat)
    ensures olds == |Old(ops)| && news == |New(ops)|
  {
    olds, news := 0, 0;
    for i := 0 to |ops|
      invariant olds == |Old(ops[..i])| && news == |New(ops[..i])|
    {
      assert ops[..i + 1][..i] == ops[..i];
      if ops[i].kind != Ins {
        olds := olds + 1;
      }
      if ops[i].kind != Del {
        news := news + 1;
      }
    }
    assert ops[..|ops|] == ops;
  }

  method PrintHunk(ops: seq<Op>, r: Range) returns (h: Hunk)
    requires r.start <= r.end <= |ops|
    ensures h == HunkOf(ops, r)
  {
    var aStart, bStart := CountSides(ops[..r.start]);
    var aCount, bCount := CountSides(ops[r.start..r.end]);
    var aDisp, bDisp := aStart + 1, bStart + 1;
    if aCount == 0 {
      aDisp := aStart;
    }
    if bCount == 0 {
      bDisp := bStart;
    }
    h := Hunk(aDisp, aCount, bDisp, bCount, ops[r.start..r.end]);
  }

  /** The zero-based start that a header stands for. */
  function Begin(disp: nat, count: nat): int {
    if count == 0 then disp else disp - 1
  }

  /** Applies hunks to a from position pos with out lines written so far. Every header field is
      checked: positions must not go back, and both sides must fit. */
  function Patch(a: seq<Line>, pos: nat, out: nat, hunks: seq<Hunk>): Option<seq<Line>>
    requires pos <= |a|
    decreases |hunks|
  {
    if hunks == [] then Some(a[pos..])
    else
      var h := hunks[0];
      var start := Begin(h.aDisp, h.aCount);
      if !(pos <= start && start + h.aCount <= |a|) then None
      else if Old(h.body) != a[start..start + h.aCount] then None
      else if Begin(h.bDisp, h.bCount) != out + (start - pos) || |New(h.body)| != h.bCount then None
      else
        match Patch(a, start + h.aCount, out + (start - pos) + h.bCount, hunks[1..])
        case None => None
        case Some(tail) => Some(a[pos..start] + New(h.body) + tail)
  }

  function HunksOf(ops: seq<Op>, ranges: seq<Range>): seq<Hunk>
    requires Ordered(ops, ranges)
  {
    if ranges == [] then []
    else
      OrderedTail(ops, ranges);
      [HunkOf(ops, ranges[0])] + HunksOf(ops, ranges[1..])
  }

  lemma OrderedTail(ops: seq<Op>, ranges: seq<Range>)
    requires Ordered(ops, ranges) && ranges != []
    ensures Ordered(ops, ranges[1..]) && ranges[0].start < ranges[0].end <= |ops|
    ensures ranges[1..] != [] ==> ranges[0].end < ranges[1..][0].start
  {
    var t := ranges[1..];
    assert forall h :: 0 <= h < |t| ==> t[h] == ranges[h + 1];
    forall h | 0 < h < |t| ensures t[h - 1].end < t[h].start {
      assert ranges[h + 1 - 1].end < ranges[h + 1].start;
    }
  }

  method UnifiedDiff(a: seq<Line>, b: seq<Line>) returns (hunks: seq<Hunk>, ghost ranges: seq<Range>)
    ensures Ordered(Script(a, b, 0, 0), ranges) && Covered(Script(a, b, 0, 0), ranges, |Script(a, b, 0, 0)|)
    ensures AllFramed(Script(a, b, 0, 0), ranges)
    ensures hunks == HunksOf(Script(a, b, 0, 0), ranges)
    ensures Patch(a, 0, 0, hunks) == Some(b)
  {
    var ops := EditScript(a, b);
    var found := FindRanges(ops);
    ranges := found;
    hunks := PrintAll(ops, found);
    assert a[0..] == a && b[0..] == b;
    ScriptEdits(a, b, 0, 0);
    HunksPatch(ops, a, b, found);
  }

  method PrintAll(ops: seq<Op>, ranges: seq<Range>) returns (hunks: seq<Hunk>)
    requires Ordered(ops, ranges)
    ensures hunks == HunksOf(ops, ranges)
  {
    hunks := [];
    assert ranges[0..] == ranges && [] + HunksOf(ops, ranges) == HunksOf(ops, ranges);
    for i := 0 to |ranges|
      invariant Ordered(ops, ranges[i..]) && hunks + HunksOf(ops, ranges[i..]) == HunksOf(ops, ranges)
    {
      OrderedTail(ops, ranges[i..]);
      assert ranges[i..][1..] == ranges[i + 1..];
      var h := PrintHunk(ops, ranges[i]);
      assert hunks + ([h] + HunksOf(ops, ranges[i + 1..])) == (hunks + [h]) + HunksOf(ops, ranges[i + 1..]);
      hunks := hunks + [h];
    }
    assert hunks + [] == hunks;
  }

  // ---- applying the hunks yields b ------------------------------------------------------------------

  lemma {:induction false} QuietSides(ops: seq<Op>)
    requires forall i :: 0 <= i < |ops| ==> !IsChange(ops[i])
    ensures Old(ops) == New(ops)
  {
    if ops != [] {
      QuietSides(ops[..|ops| - 1]);
    }
  }

  /** The old lines of a stretch of the script are a stretch of a. */
  lemma OldSlice(ops: seq<Op>, a: seq<Line>, from: nat, to: nat)
    requires Old(ops) == a && from <= to <= |ops|
    ensures var x, y := |Old(ops[..from])|, |Old(ops[..to])|;
      x <= y <= |a| && a[x..y] == Old(ops[from..to]) && y == x + |Old(ops[from..to])|
  {
    assert ops[..to] == ops[..from] + ops[from..to];
    SidesConcat(ops[..from], ops[from..to]);
    assert ops == ops[..to] + ops[to..];
    SidesConcat(ops[..to], ops[to..]);
    Middle(Old(ops[..from]), Old(ops[from..to]), Old(ops[to..]));
  }

  lemma Middle(p: seq<Line>, q: seq<Line>, r: seq<Line>)
    ensures ((p + q) + r)[|p|..|p| + |q|] == q
  {
  }

  lemma NewSlice(ops: seq<Op>, from: nat, to: nat)
    requires from <= to <= |ops|
    ensures |New(ops[..to])| == |New(ops[..from])| + |New(ops[from..to])|
    ensures New(ops[from..]) == New(ops[from..to]) + New(ops[to..])
  {
    assert ops[..to] == ops[..from] + ops[from..to];
    SidesConcat(ops[..from], ops[from..to]);
    assert ops[from..] == ops[from..to] + ops[to..];
    SidesConcat(ops[from..to], ops[to..]);
  }

  /** Changes from position e on lie in the ranges. */
  ghost predicate CoveredFrom(ops: seq<Op>, ranges: seq<Range>, e: nat)
  {
    forall i :: e <= i < |ops| && IsChange(ops[i]) ==> exists h :: 0 <= h < |ranges| && InRange(ranges[h], i)
  }

  lemma {:induction false} StartsAfter(ops: seq<Op>, ranges: seq<Range>, h: nat)
    requires Ordered(ops, ranges) && h < |ranges|
    ensures ranges[0].start <= ranges[h].start
  {
    if h > 0 {
      StartsAfter(ops, ranges, h - 1);
      assert ranges[h - 1].end < ranges[h].start;
    }
  }

  lemma CoverTail(ops: seq<Op>, ranges: seq<Range>, e: nat)
    requires Ordered(ops, ranges) && ranges != [] && e <= ranges[0].start && CoveredFrom(ops, ranges, e)
    ensures Quiet(ops, e, ranges[0].start) && CoveredFrom(ops, ranges[1..], ranges[0].end)
  {
    forall i | e <= i < ranges[0].start ensures !IsChange(ops[i]) {
      if IsChange(ops[i]) {
        var h :| 0 <= h < |ranges| && InRange(ranges[h], i);
        StartsAfter(ops, ranges, h);
        assert false;
      }
    }
    forall i | ranges[0].end <= i < |ops| && IsChange(ops[i])
      ensures exists h :: 0 <= h < |ranges[1..]| && InRange(ranges[1..][h], i)
    {
      var h :| 0 <= h < |ranges| && InRange(ranges[h], i);
      assert ranges[1..][h - 1] == ranges[h];
    }
  }

  lemma {:induction false} PatchRest(ops: seq<Op>, a: seq<Line>, ranges: seq<Range>, e: nat)
    requires Old(ops) == a && Ordered(ops, ranges) && e <= |ops|
    requires (ranges != [] ==> e <= ranges[0].start) && CoveredFrom(ops, ranges, e)
    ensures |Old(ops[..e])| <= |a|
    ensures Patch(a, |Old(ops[..e])|, |New(ops[..e])|, HunksOf(ops, ranges)) == Some(New(ops[e..]))
    decreases |ranges|
  {
    if ranges == [] {
      LastStretch(ops, a, e);
    } else {
      OldSlice(ops, a, e, |ops|);
      OrderedTail(ops, ranges);
      CoverTail(ops, ranges, e);
      PatchRest(ops, a, ranges[1..], ranges[0].end);
      PatchOne(ops, a, ranges[0], e, HunksOf(ops, ranges[1..]));
    }
  }

  lemma QuietSlice(ops: seq<Op>, from: nat, to: nat)
    requires from <= to <= |ops| && Quiet(ops, from, to)
    ensures Old(ops[from..to]) == New(ops[from..to])
  {
    var s := ops[from..to];
    forall i | 0 <= i < |s| ensures !IsChange(s[i]) {
      assert s[i] == ops[from + i];
    }
    QuietSides(s);
  }

  /** Behind the last hunk a and b agree. */
  lemma LastStretch(ops: seq<Op>, a: seq<Line>, e: nat)
    requires Old(ops) == a && e <= |ops| && CoveredFrom(ops, [], e)
    ensures |Old(ops[..e])| <= |a| && a[|Old(ops[..e])|..] == New(ops[e..])
  {
    OldSlice(ops, a, e, |ops|);
    assert ops[..|ops|] == ops && ops[e..|ops|] == ops[e..];
    assert a[|Old(ops[..e])|..|a|] == a[|Old(ops[..e])|..];
    QuietSlice(ops, e, |ops|);
  }

  lemma PatchStep(a: seq<Line>, pos: nat, out: nat, h: Hunk, rest: seq<Hunk>, start: nat, tail: seq<Line>, all: seq<Line>)
    requires start == Begin(h.aDisp, h.aCount) && pos <= start && start + h.aCount <= |a|
    requires Old(h.body) == a[start..start + h.aCount] && |New(h.body)| == h.bCount
    requires Begin(h.bDisp, h.bCount) == out + (start - pos)
    requires Patch(a, start + h.aCount, out + (start - pos) + h.bCount, rest) == Some(tail)
    requires all == a[pos..start] + New(h.body) + tail
    ensures Patch(a, pos, out, [h] + rest) == Some(all)
  {
    assert ([h] + rest)[1..] == rest;
  }

  lemma HunkBegins(ops: seq<Op>, r: Range)
    requires r.start < r.end <= |ops|
    ensures var h := HunkOf(ops, r);
      && h.body == ops[r.start..r.end] && h.aCount == |Old(h.body)| && h.bCount == |New(h.body)|
      && Begin(h.aDisp, h.aCount) == |Old(ops[..r.start])| && Begin(h.bDisp, h.bCount) == |New(ops[..r.start])|
  {
  }

  /** The unchanged stretch in front of a hunk, and the hunk's lines. */
  lemma HunkLines(ops: seq<Op>, a: seq<Line>, r: Range, e: nat)
    requires Old(ops) == a && e <= r.start < r.end <= |ops| && Quiet(ops, e, r.start)
    ensures var x, y, z := |Old(ops[..e])|, |Old(ops[..r.start])|, |Old(ops[..r.end])|;
      && x <= y <= z <= |a| && a[x..y] == New(ops[e..r.start]) && a[y..z] == Old(ops[r.start..r.end])
      && z == y + |Old(ops[r.start..r.end])| && |New(ops[..r.start])| == |New(ops[..e])| + (y - x)
  {
    OldSlice(ops, a, e, r.start);
    OldSlice(ops, a, r.start, r.end);
    NewSlice(ops, e, r.start);
    QuietSlice(ops, e, r.start);
  }

  lemma HunkTail(ops: seq<Op>, r: Range, e: nat)
    requires e <= r.start < r.end <= |ops|
    ensures New(ops[e..]) == New(ops[e..r.start]) + New(ops[r.start..r.end]) + New(ops[r.end..])
    ensures |New(ops[..r.end])| == |New(ops[..r.start])| + |New(ops[r.start..r.end])|
  {
    NewSlice(ops, e, r.start);
    NewSlice(ops, r.start, r.end);
    Assoc(New(ops[e..r.start]), New(ops[r.start..r.end]), New(ops[r.end..]));
  }

  /** One hunk behind a stretch without changes. */
  lemma PatchOne(ops: seq<Op>, a: seq<Line>, r: Range, e: nat, rest: seq<Hunk>)
    requires Old(ops) == a && e <= r.start < r.end <= |ops| && Quiet(ops, e, r.start)
    requires |Old(ops[..r.end])| <= |a|
    requires Patch(a, |Old(ops[..r.end])|, |New(ops[..r.end])|, rest) == Some(New(ops[r.end..]))
    ensures |Old(ops[..e])| <= |a|
    ensures Patch(a, |Old(ops[..e])|, |New(ops[..e])|, [HunkOf(ops, r)] + rest) == Some(New(ops[e..]))
  {
    HunkLines(ops, a, r, e);
    HunkTail(ops, r, e);
    HunkBegins(ops, r);
    var h, x, y := HunkOf(ops, r), |Old(ops[..e])|, |Old(ops[..r.start])|;
    assert y + h.aCount == |Old(ops[..r.end])|;
    PatchStep(a, x, |New(ops[..e])|, h, rest, y, New(ops[r.end..]), New(ops[e..]));
  }

  /** Applying all hunks to a, by their printed headers, yields exactly b. */
  lemma HunksPatch(ops: seq<Op>, a: seq<Line>, b: seq<Line>, ranges: seq<Range>)
    requires Edits(ops, a, b) && Ordered(ops, ranges) && Covered(ops, ranges, |ops|)
    ensures Patch(a, 0, 0, HunksOf(ops, ranges)) == Some(b)
  {
    assert ops[..0] == [] && ops[0..] == ops;
    PatchRest(ops, a, ranges, 0);
  }
}
