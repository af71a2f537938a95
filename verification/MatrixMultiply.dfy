/** Dense matrix multiply. Nothing is assumed about addition and multiplication: no
    associativity, no commutativity, as for floating-point numbers. */
module MatrixMultiply {
  import opened Arithmetic
  import opened Sums

  datatype Arith<!T> = Arith(zero: T, add: (T, T) -> T, mul: (T, T) -> T)

  // ----- Cells of a flat array -----

  lemma MulNotLess(a: nat, b: nat, n: nat)
    ensures a >= b ==> a * n >= b * n
  {
    if a > b { MulMonotone(b, a, n); }
  }

  function At(row: nat, col: nat, n: nat): (i: nat)
    requires row < n && col < n
    ensures i < n * n
  {
    MulMonotone(row, n, n);
    row * n + col
  }

  /** Different cells have different places: the column tasks never touch the same cell. */
  lemma AtInjective(row: nat, col: nat, row': nat, col': nat, n: nat)
    requires row < n && col < n && row' < n && col' < n
    ensures At(row, col, n) == At(row', col', n) ==> row == row' && col == col'
  {
    if row < row' {
      MulMonotone(row, row', n);
    } else if row' < row {
      MulMonotone(row', row, n);
    }
  }

  /** Every place is a cell. */
  lemma AtSurjective(i: nat, n: nat) returns (row: nat, col: nat)
    requires i < n * n
    ensures row < n && col < n && At(row, col, n) == i
  {
    row, col := 0, i;
    while col >= n
      invariant row * n + col == i
      decreases col
    {
      assert (row + 1) * n == row * n + n;
      row, col := row + 1, col - n;
    }
    MulNotLess(row, n, n);
  }

  function Cell<T>(s: seq<T>, row: nat, col: nat, n: nat): T
    requires |s| == n * n && row < n && col < n
  {
    s[At(row, col, n)]
  }

  lemma CellUpdate<T>(s: seq<T>, row: nat, col: nat, v: T, row': nat, col': nat, n: nat)
    requires |s| == n * n && row < n && col < n && row' < n && col' < n
    ensures Cell(s[At(row, col, n) := v], row', col', n)
         == if row == row' && col == col' then v else Cell(s, row', col', n)
  {
    AtInjective(row, col, row', col', n);
  }

  lemma CellsDetermine<T>(s: seq<T>, t: seq<T>, n: nat)
    requires |s| == |t| == n * n
    requires forall row: nat, col: nat :: row < n && col < n ==> Cell(s, row, col, n) == Cell(t, row, col, n)
    ensures s == t
  {
    forall i | 0 <= i < n * n
      ensures s[i] == t[i]
    {
      var row, col := AtSurjective(i, n);
      assert Cell(s, row, col, n) == Cell(t, row, col, n);
    }
  }

  // ----- The product -----

  /** The first k terms of a dot product, added from the left starting with zero. */
  function Dot<T>(ar: Arith<T>, a: seq<T>, b: seq<T>, n: nat, row: nat, col: nat, k: nat): T
    requires |a| == |b| == n * n && row < n && col < n && k <= n
  {
    if k == 0 then ar.zero
    else ar.add(Dot(ar, a, b, n, row, col, k - 1), ar.mul(Cell(a, row, k - 1, n), Cell(b, k - 1, col, n)))
  }

  ghost predicate IsProduct<T(!new)>(ar: Arith<T>, a: seq<T>, b: seq<T>, n: nat, c: seq<T>)
    requires |a| == |b| == n * n
  {
    && |c| == n * n
    && forall row: nat, col: nat :: row < n && col < n ==> Cell(c, row, col, n) == Dot(ar, a, b, n, row, col, n)
  }

  lemma ProductUnique<T(!new)>(ar: Arith<T>, a: seq<T>, b: seq<T>, n: nat, c: seq<T>, d: seq<T>)
    requires |a| == |b| == n * n
    requires IsProduct(ar, a, b, n, c) && IsProduct(ar, a, b, n, d)
    ensures c == d
  {
    CellsDetermine(c, d, n);
  }

  // ----- The same on flat sequences -----

  /** The products of corresponding entries, added from the left starting with zero. */
  function DotProduct<T>(ar: Arith<T>, xs: seq<T>, ys: seq<T>): T
    requires |xs| == |ys|
  {
    if xs == [] then ar.zero
    else
      var last := |xs| - 1;
      ar.add(DotProduct(ar, xs[..last], ys[..last]), ar.mul(xs[last], ys[last]))
  }

  /** A row is a slice. */
  function RowOf<T>(s: seq<T>, row: nat, n: nat): (r: seq<T>)
    requires |s| == n * n && row < n
    ensures |r| == n
  {
    MulMonotone(row, n, n);
    s[row * n..row * n + n]
  }

  /** A column is every n-th entry. */
  function ColumnOf<T>(s: seq<T>, col: nat, n: nat): (r: seq<T>)
    requires |s| == n * n && col < n
    ensures |r| == n
  {
    seq(n, k requires 0 <= k < n => MulMonotone(k, n, n); s[k * n + col])
  }

  ghost predicate FlatCell<T(!new)>(ar: Arith<T>, a: seq<T>, b: seq<T>, n: nat, c: seq<T>, row: nat, col: nat)
    requires |a| == |b| == |c| == n * n && row < n && col < n
  {
    MulMonotone(row, n, n);
    c[row * n + col] == DotProduct(ar, RowOf(a, row, n), ColumnOf(b, col, n))
  }

  /** Entry row * n + col of c is the dot product of a slice of a with every n-th entry of b. */
  ghost predicate IsFlatProduct<T(!new)>(ar: Arith<T>, a: seq<T>, b: seq<T>, n: nat, c: seq<T>)
    requires |a| == |b| == n * n
  {
    |c| == n * n && forall row: nat, col: nat :: row < n && col < n ==> FlatCell(ar, a, b, n, c, row, col)
  }

  lemma DotProductGrows<T>(ar: Arith<T>, xs: seq<T>, ys: seq<T>, k: nat)
    requires k < |xs| == |ys|
    ensures DotProduct(ar, xs[..k + 1], ys[..k + 1]) == ar.add(DotProduct(ar, xs[..k], ys[..k]), ar.mul(xs[k], ys[k]))
  {
    assert xs[..k + 1][..k] == xs[..k] && ys[..k + 1][..k] == ys[..k];
  }

  lemma RowEntry<T>(s: seq<T>, row: nat, col: nat, n: nat)
    requires |s| == n * n && row < n && col < n
    ensures RowOf(s, row, n)[col] == Cell(s, row, col, n)
  {
    var start := row * n;
    MulMonotone(row, n, n);
    assert s[start..start + n][col] == s[start + col];
  }

  lemma ColumnEntry<T>(s: seq<T>, row: nat, col: nat, n: nat)
    requires |s| == n * n && row < n && col < n
    ensures ColumnOf(s, col, n)[row] == Cell(s, row, col, n)
  {
  }

  lemma {:induction false} DotOfPrefix<T>(ar: Arith<T>, a: seq<T>, b: seq<T>, n: nat, row: nat, col: nat, k: nat)
    requires |a| == |b| == n * n && row < n && col < n && k <= n
    ensures Dot(ar, a, b, n, row, col, k) == DotProduct(ar, RowOf(a, row, n)[..k], ColumnOf(b, col, n)[..k])
  {
    if k == 0 {
    } else {
      DotOfPrefix(ar, a, b, n, row, col, k - 1);
      DotProductGrows(ar, RowOf(a, row, n), ColumnOf(b, col, n), k - 1);
      RowEntry(a, row, k - 1, n);
      ColumnEntry(b, k - 1, col, n);
    }
  }

  lemma FlatCellIff<T(!new)>(ar: Arith<T>, a: seq<T>, b: seq<T>, n: nat, c: seq<T>, row: nat, col: nat)
    requires |a| == |b| == |c| == n * n && row < n && col < n
    ensures FlatCell(ar, a, b, n, c, row, col) <==> Cell(c, row, col, n) == Dot(ar, a, b, n, row, col, n)
  {
    DotOfPrefix(ar, a, b, n, row, col, n);
    assert RowOf(a, row, n)[..n] == RowOf(a, row, n) && ColumnOf(b, col, n)[..n] == ColumnOf(b, col, n);
  }

  lemma IsFlatProductIff<T(!new)>(ar: Arith<T>, a: seq<T>, b: seq<T>, n: nat, c: seq<T>)
    requires |a| == |b| == n * n
    ensures IsFlatProduct(ar, a, b, n, c) <==> IsProduct(ar, a, b, n, c)
  {
    if |c| == n * n {
      forall row: nat, col: nat | row < n && col < n
        ensures FlatCell(ar, a, b, n, c, row, col) <==> Cell(c, row, col, n) == Dot(ar, a, b, n, row, col, n)
      {
        FlatCellIff(ar, a, b, n, c, row, col);
      }
    }
  }

  /** The cells selected by done hold their dot products, the others are still zero. */
  ghost predicate Partial<T(!new)>(ar: Arith<T>, a: seq<T>, b: seq<T>, n: nat, c: seq<T>, done: (nat, nat) -> bool)
    requires |a| == |b| == n * n
  {
    && |c| == n * n
    && forall row: nat, col: nat :: row < n && col < n ==>
         Cell(c, row, col, n) == if done(row, col) then Dot(ar, a, b, n, row, col, n) else ar.zero
  }

  /** The innermost loop, the same in all versions. */
  method Accumulate<T>(ar: Arith<T>, a: array<T>, b: array<T>, c: array<T>, n: nat, row: nat, col: nat)
    requires a.Length == b.Length == c.Length == n * n && c != a && c != b
    requires row < n && col < n && Cell(c[..], row, col, n) == ar.zero
    modifies c
    ensures c[..] == old(c[..])[At(row, col, n) := Dot(ar, a[..], b[..], n, row, col, n)]
  {
    var index := 0;
    while index < n
      invariant index <= n
      invariant c[..] == old(c[..])[At(row, col, n) := Dot(ar, a[..], b[..], n, row, col, index)]
    {
      c[At(row, col, n)] := ar.add(c[At(row, col, n)], ar.mul(a[At(row, index, n)], b[At(index, col, n)]));
      index := index + 1;
    }
  }

  lemma PartialGrows<T(!new)>(ar: Arith<T>, a: seq<T>, b: seq<T>, n: nat, c: seq<T>, row: nat, col: nat,
                              done: (nat, nat) -> bool, done': (nat, nat) -> bool)
    requires |a| == |b| == n * n && row < n && col < n
    requires Partial(ar, a, b, n, c, done)
    requires forall r: nat, k: nat :: r < n && k < n ==> (done'(r, k) <==> done(r, k) || (r == row && k == col))
    ensures Partial(ar, a, b, n, c[At(row, col, n) := Dot(ar, a, b, n, row, col, n)], done')
  {
    forall r: nat, k: nat | r < n && k < n
      ensures Cell(c[At(row, col, n) := Dot(ar, a, b, n, row, col, n)], r, k, n)
           == if done'(r, k) then Dot(ar, a, b, n, r, k, n) else ar.zero
    {
      CellUpdate(c, row, col, Dot(ar, a, b, n, row, col, n), r, k, n);
    }
  }

  /** The check loop of parallel_dense_mm.c: columns outside, rows inside. */
  method SerialByColumns<T(!new)>(ar: Arith<T>, a: array<T>, b: array<T>, d: array<T>, n: nat)
    requires a.Length == b.Length == d.Length == n * n && d != a && d != b
    requires forall i :: 0 <= i < n * n ==> d[i] == ar.zero
    modifies d
    ensures IsProduct(ar, a[..], b[..], n, d[..]) && IsFlatProduct(ar, a[..], b[..], n, d[..])
  {
    var col := 0;
    while col < n
      invariant col <= n
      invariant Partial(ar, a[..], b[..], n, d[..], (r, k) => k < col)
    {
      var row := 0;
      while row < n
        invariant row <= n
        invariant Partial(ar, a[..], b[..], n, d[..], (r, k) => k < col || (k == col && r < row))
      {
        ghost var before := d[..];
        assert Cell(before, row, col, n) == ar.zero;
        Accumulate(ar, a, b, d, n, row, col);
        PartialGrows(ar, a[..], b[..], n, before, row, col,
          (r, k) => k < col || (k == col && r < row), (r, k) => k < col || (k == col && r < row + 1));
        row := row + 1;
      }
      col := col + 1;
    }
    IsFlatProductIff(ar, a[..], b[..], n, d[..]);
  }

  /** The multiply of dense_mm.c: rows outside, columns inside. */
  method SerialByRows<T(!new)>(ar: Arith<T>, a: array<T>, b: array<T>, c: array<T>, n: nat)
    requires a.Length == b.Length == c.Length == n * n && c != a && c != b
    requires forall i :: 0 <= i < n * n ==> c[i] == ar.zero
    modifies c
    ensures IsProduct(ar, a[..], b[..], n, c[..]) && IsFlatProduct(ar, a[..], b[..], n, c[..])
  {
    var row := 0;
    while row < n
      invariant row <= n
      invariant Partial(ar, a[..], b[..], n, c[..], (r, k) => r < row)
    {
      var col := 0;
      while col < n
        invariant col <= n
        invariant Partial(ar, a[..], b[..], n, c[..], (r, k) => r < row || (r == row && k < col))
      {
        ghost var before := c[..];
        assert Cell(before, row, col, n) == ar.zero;
        Accumulate(ar, a, b, c, n, row, col);
        PartialGrows(ar, a[..], b[..], n, before, row, col,
          (r, k) => r < row || (r == row && k < col), (r, k) => r < row || (r == row && k < col + 1));
        col := col + 1;
      }
      row := row + 1;
    }
    IsFlatProductIff(ar, a[..], b[..], n, c[..]);
  }

  // ----- The parallel loop -----

  datatype Register<T> = Empty | Loaded(value: T)

  /** The task of one column: its private row and index, and the cell value it has loaded. */
  datatype Task<T> = Task(row: nat, index: nat, reg: Register<T>)

  /** How many terms of its dot product a cell of the task's column has accumulated. */
  function Progress<T>(t: Task<T>, row: nat, n: nat): nat {
    if row < t.row then n else if row == t.row then t.index else 0
  }

  /** The task's column is right up to its own progress, and zero beyond. */
  ghost predicate TaskInv<T(!new)>(ar: Arith<T>, a: seq<T>, b: seq<T>, n: nat, c: seq<T>, col: nat, t: Task<T>)
    requires |a| == |b| == n * n && col < n
  {
    && |c| == n * n
    && t.row <= n && t.index <= n
    && (t.reg.Loaded? ==> t.row < n && t.index < n && t.reg.value == Cell(c, t.row, col, n))
    && forall row: nat :: row < n ==>
         Cell(c, row, col, n) == Dot(ar, a, b, n, row, col, Progress(t, row, n))
  }

  /** Memory accesses and loop tests a column task still has before it. */
  function Left<T>(t: Task<T>, n: nat): int {
    (n - t.row) * (2 * n + 1) - 2 * t.index - (if t.reg.Loaded? then 1 else 0)
  }

  lemma LeftOfNextRow(row: nat, n: nat)
    requires row < n
    ensures (n - row - 1) * (2 * n + 1) == (n - row) * (2 * n + 1) - 2 * n - 1
    ensures (n - row) * (2 * n + 1) >= 2 * n + 1
  {
    var k, d: nat := n - row - 1, 2 * n + 1;
    assert (k + 1) * d == k * d + d;
  }

  /** One memory access of a column task leaves the other columns alone. */
  lemma OtherColumnsKeep<T(!new)>(ar: Arith<T>, a: seq<T>, b: seq<T>, n: nat, c: seq<T>, row: nat, col: nat, v: T,
                                  other: nat, t: Task<T>)
    requires |a| == |b| == |c| == n * n && row < n && col < n && other < n && other != col
    requires TaskInv(ar, a, b, n, c, other, t)
    ensures TaskInv(ar, a, b, n, c[At(row, col, n) := v], other, t)
  {
    forall r: nat | r < n
      ensures Cell(c[At(row, col, n) := v], r, other, n) == Cell(c, r, other, n)
    {
      CellUpdate(c, row, col, v, r, other, n);
    }
  }

  lemma OwnColumnStored<T(!new)>(ar: Arith<T>, a: seq<T>, b: seq<T>, n: nat, c: seq<T>, col: nat, t: Task<T>)
    requires |a| == |b| == |c| == n * n && col < n && t.reg.Loaded?
    requires TaskInv(ar, a, b, n, c, col, t)
    ensures var v := ar.add(t.reg.value, ar.mul(Cell(a, t.row, t.index, n), Cell(b, t.index, col, n)));
      TaskInv(ar, a, b, n, c[At(t.row, col, n) := v], col, Task(t.row, t.index + 1, Empty))
  {
    var v := ar.add(t.reg.value, ar.mul(Cell(a, t.row, t.index, n), Cell(b, t.index, col, n)));
    var t': Task<T> := Task(t.row, t.index + 1, Empty);
    assert v == Dot(ar, a, b, n, t.row, col, t.index + 1);
    forall r: nat | r < n
      ensures Cell(c[At(t.row, col, n) := v], r, col, n) == Dot(ar, a, b, n, r, col, Progress(t', r, n))
    {
      CellUpdate(c, t.row, col, v, r, col, n);
      assert r != t.row ==> Progress(t', r, n) == Progress(t, r, n);
    }
  }

  /** One memory access, or one step of the row loop, of the task of column col. */
  method TaskStep<T(!new)>(ar: Arith<T>, a: array<T>, b: array<T>, c: array<T>, n: nat, col: nat, tasks: seq<Task<T>>)
    returns (t': Task<T>)
    requires a.Length == b.Length == c.Length == n * n && c != a && c != b && col < n == |tasks|
    requires tasks[col].row < n && forall k: nat :: k < n ==> TaskInv(ar, a[..], b[..], n, c[..], k, tasks[k])
    modifies c
    ensures 0 <= Left(t', n) < Left(tasks[col], n)
    ensures forall k: nat :: k < n ==> TaskInv(ar, a[..], b[..], n, c[..], k, if k == col then t' else tasks[k])
  {
    var t := tasks[col];
    LeftOfNextRow(t.row, n);
    if t.index == n {
      t' := Task(t.row + 1, 0, Empty);
      if t.row + 1 < n { LeftOfNextRow(t.row + 1, n); }
    } else if t.reg.Empty? {
      t' := t.(reg := Loaded(c[At(t.row, col, n)]));
    } else {
      ghost var before := c[..];
      var v := ar.add(t.reg.value, ar.mul(a[At(t.row, t.index, n)], b[At(t.index, col, n)]));
      c[At(t.row, col, n)] := v;
      t' := Task(t.row, t.index + 1, Empty);
      assert c[..] == before[At(t.row, col, n) := v];
      OwnColumnStored(ar, a[..], b[..], n, before, col, t);
      forall k: nat | k < n && k != col
        ensures TaskInv(ar, a[..], b[..], n, c[..], k, tasks[k])
      {
        OtherColumnsKeep(ar, a[..], b[..], n, before, t.row, col, v, k, tasks[k]);
      }
    }
  }

  /** The parallel loop: the scheduler lets any unfinished column task make the next memory
      access. Every schedule terminates, and leaves the product. */
  method Parallel<T(!new)>(ar: Arith<T>, a: array<T>, b: array<T>, c: array<T>, n: nat)
    requires a.Length == b.Length == c.Length == n * n && c != a && c != b
    requires forall i :: 0 <= i < n * n ==> c[i] == ar.zero
    modifies c
    ensures IsProduct(ar, a[..], b[..], n, c[..]) && IsFlatProduct(ar, a[..], b[..], n, c[..])
  {
    var tasks: seq<Task<T>> := seq(n, _ => Task(0, 0, Empty));
    ghost var left: seq<nat> := seq(n, _ => n * (2 * n + 1));
    while exists col :: 0 <= col < n && tasks[col].row < n
      invariant |tasks| == |left| == n
      invariant forall col: nat :: col < n ==> TaskInv(ar, a[..], b[..], n, c[..], col, tasks[col])
      invariant forall col: nat :: col < n ==> left[col] == Left(tasks[col], n)
      decreases Sum(left)
    {
      var col :| 0 <= col < n && tasks[col].row < n;
      var t := TaskStep(ar, a, b, c, n, col, tasks);
      SumUpdate(left, col, Left(t, n));
      left := left[col := Left(t, n)];
      tasks := tasks[col := t];
    }
    forall row: nat, col: nat | row < n && col < n
      ensures Cell(c[..], row, col, n) == Dot(ar, a[..], b[..], n, row, col, n)
    {
      assert TaskInv(ar, a[..], b[..], n, c[..], col, tasks[col]);
    }
    IsFlatProductIff(ar, a[..], b[..], n, c[..]);
  }

  /** The whole program with VERIFY_PARALLEL: the assertion at line 93 holds of every entry,
      and the row-outer program computes the same. */
  method VerifyParallel<T(!new)>(ar: Arith<T>, a: array<T>, b: array<T>, c: array<T>, d: array<T>, e: array<T>, n: nat)
    requires a.Length == b.Length == c.Length == d.Length == e.Length == n * n
    requires c != a && c != b && d != a && d != b && e != a && e != b && c != d && c != e && d != e
    requires forall i :: 0 <= i < n * n ==> c[i] == d[i] == e[i] == ar.zero
    modifies c, d, e
    ensures c[..] == d[..] == e[..]
    ensures IsProduct(ar, a[..], b[..], n, c[..]) && IsFlatProduct(ar, a[..], b[..], n, c[..])
  {
    Parallel(ar, a, b, c, n);
    SerialByColumns(ar, a, b, d, n);
    SerialByRows(ar, a, b, e, n);
    ProductUnique(ar, a[..], b[..], n, c[..], d[..]);
    ProductUnique(ar, a[..], b[..], n, c[..], e[..]);
  }

  // ----- The size check -----

  const UNSIGNED: nat := 0x1_0000_0000
  const SIZE_T_32: nat := 0x1_0000_0000
  const SIZE_T_64: nat := 0x1_0000_0000_0000_0000
  const SIZEOF_DOUBLE: nat := 8
  const SQRT_OF_UINT32_MAX: nat := 65536

  /** squared_size is an unsigned product. */
  function SquaredSize(n: nat): nat {
    (n * n) % UNSIGNED
  }

  /** The argument of malloc: a product of type size_t, which has sizeT values. */
  function Bytes(n: nat, sizeT: nat): nat
    requires sizeT > 0
  {
    (SIZEOF_DOUBLE * SquaredSize(n)) % sizeT
  }

  predicate Accepted(n: nat) {
    n <= SQRT_OF_UINT32_MAX
  }

  /** Every cell lies inside the block that malloc was asked for. */
  ghost predicate AllCellsAllocated(n: nat, sizeT: nat)
    requires sizeT > 0
  {
    forall row: nat, col: nat :: row < n && col < n ==>
      SIZEOF_DOUBLE * At(row, col, n) + SIZEOF_DOUBLE <= Bytes(n, sizeT)
  }

  lemma SquareMonotone(m: nat, n: nat)
    requires m <= n
    ensures m * m <= n * n
  {
    MulNotLess(n, m, m);
    MulNotLess(n, m, n);
    assert m * n == n * m;
  }

  /** For accepted sizes the unsigned square is exact, except that 65536 gives zero; and no
      index wraps around. */
  lemma SquaredSizeOf(n: nat)
    requires Accepted(n)
    ensures SquaredSize(n) == if n == 65536 then 0 else n * n
    ensures forall row: nat, col: nat :: row < n && col < n ==> At(row, col, n) < UNSIGNED
  {
    SquareMonotone(n, 65536);
    if n < 65536 {
      SquareMonotone(n, 65535);
    }
  }

  /** The last cell is inside the block only if the whole product is. */
  lemma LastCell(n: nat)
    requires n > 0
    ensures At(n - 1, n - 1, n) == n * n - 1
  {
    assert (n - 1) * n == n * n - n;
  }

  /** The size check lets sizes through whose product wraps around. Of the accepted sizes,
      exactly those have all their cells allocated for which neither the unsigned square
      nor the number of bytes wraps. */
  lemma AllCellsAllocatedIff(n: nat, sizeT: nat)
    requires Accepted(n) && sizeT > 0
    ensures AllCellsAllocated(n, sizeT) <==> n != 65536 && SIZEOF_DOUBLE * (n * n) < sizeT
  {
    SquaredSizeOf(n);
    var bytes := SIZEOF_DOUBLE * (n * n);
    if n == 65536 {
      LastCell(n);
      assert Bytes(n, sizeT) == 0 by { ZeroModulo(sizeT); }
      assert SIZEOF_DOUBLE * At(n - 1, n - 1, n) + SIZEOF_DOUBLE > Bytes(n, sizeT);
    } else if bytes < sizeT {
      SmallModulo(bytes, sizeT);
    } else {
      LastCell(n);
      assert Bytes(n, sizeT) == bytes % sizeT < bytes;
      assert SIZEOF_DOUBLE * At(n - 1, n - 1, n) + SIZEOF_DOUBLE > Bytes(n, sizeT);
    }
  }

  lemma ZeroModulo(d: nat)
    requires d > 0
    ensures 0 % d == 0
  {
  }

  lemma SmallModulo(x: nat, d: nat)
    requires x < d
    ensures x % d == x
  {
  }

  /** With the 32-bit size_t of the ARM boards, the largest safe size is 23170. */
  lemma AllCellsAllocated32Iff(n: nat)
    requires Accepted(n)
    ensures AllCellsAllocated(n, SIZE_T_32) <==> n <= 23170
  {
    AllCellsAllocatedIff(n, SIZE_T_32);
    if n <= 23170 {
      SquareMonotone(n, 23170);
    } else {
      SquareMonotone(23171, n);
    }
  }

  /** The check is one too generous: the last size it accepts has no cells at all. */
  lemma LastAcceptedIsUnsafe(sizeT: nat)
    requires sizeT > 0
    ensures Accepted(65536) && !Accepted(65537) && !AllCellsAllocated(65536, sizeT)
  {
    AllCellsAllocatedIff(65536, sizeT);
  }

  /** With a 64-bit size_t, only 65536 is unsafe. */
  lemma AllCellsAllocated64Iff(n: nat)
    requires Accepted(n)
    ensures AllCellsAllocated(n, SIZE_T_64) <==> n != 65536
  {
    AllCellsAllocatedIff(n, SIZE_T_64);
    SquareMonotone(n, 65536);
  }
}
