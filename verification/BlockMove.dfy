/**
 Overlapping element shifts in 16-, 8- and 4-byte blocks (include/itch/simd/block_move.hpp).

 Memory is an array of cells of `cell` bytes: 1 for raw bytes, 4 or 8 for typed level arrays.
 Lengths and offsets are counted in cells; a block is read whole before it is written.
 */
module BlockMove {
  /** What memmove does: the `n` cells at `src` appear at `dst`, everything else stays. */
  function Moved<T>(s: seq<T>, dst: nat, src: nat, n: nat): (r: seq<T>)
    requires dst + n <= |s| && src + n <= |s|
    ensures |r| == |s|
  {
    s[..dst] + s[src..src + n] + s[dst + n..]
  }

  ghost predicate CellSize(cell: nat, n: nat) {
    (cell == 1 && n % 4 == 0) || cell == 4 || cell == 8
  }

  /** A block of `bytes` bytes, in cells. */
  function Cells(bytes: nat, cell: nat): nat {
    if cell == 1 then bytes else if cell == 4 then bytes / 4 else bytes / 8
  }

  /** One load and one store of `b` cells. */
  method CopyBlock<T>(a: array<T>, dst: nat, src: nat, b: nat)
    requires dst + b <= a.Length && src + b <= a.Length
    modifies a
    ensures a[..] == Moved(old(a[..]), dst, src, b)
  {
    var v := a[src..src + b];
    forall j | 0 <= j < b { a[dst + j] := v[j]; }
  }

  /** Cell by cell: what a move leaves at place k. */
  lemma MovedAt<T>(s: seq<T>, dst: nat, src: nat, n: nat, k: nat)
    requires dst + n <= |s| && src + n <= |s| && k < |s|
    ensures Moved(s, dst, src, n)[k] == if dst <= k < dst + n then s[src + k - dst] else s[k]
  {
  }

  /** From the top down: moving the block below position `i` extends the part already moved. */
  lemma MovedUpMore<T>(was: seq<T>, dst: nat, src: nat, n: nat, i: nat, b: nat)
    requires src < dst && dst + n <= |was| && b <= i <= n
    ensures Moved(Moved(was, dst + i, src + i, n - i), dst + i - b, src + i - b, b) ==
      Moved(was, dst + i - b, src + i - b, n - i + b)
  {
    hide Moved;
    var once := Moved(was, dst + i, src + i, n - i);
    var twice := Moved(once, dst + i - b, src + i - b, b);
    forall k | 0 <= k < |was| ensures twice[k] == Moved(was, dst + i - b, src + i - b, n - i + b)[k] {
      MovedAt(once, dst + i - b, src + i - b, b, k);
      MovedAt(was, dst + i - b, src + i - b, n - i + b, k);
      MovedAt(was, dst + i, src + i, n - i, k);
      if dst + i - b <= k < dst + i { MovedAt(was, dst + i, src + i, n - i, src + k - dst); }
    }
  }

  /** From the bottom up. */
  lemma MovedDownMore<T>(was: seq<T>, dst: nat, src: nat, i: nat, b: nat)
    requires dst < src && src + i + b <= |was|
    ensures Moved(Moved(was, dst, src, i), dst + i, src + i, b) == Moved(was, dst, src, i + b)
  {
    hide Moved;
    var once := Moved(was, dst, src, i);
    var twice := Moved(once, dst + i, src + i, b);
    forall k | 0 <= k < |was| ensures twice[k] == Moved(was, dst, src, i + b)[k] {
      MovedAt(once, dst + i, src + i, b, k);
      MovedAt(was, dst, src, i + b, k);
      MovedAt(was, dst, src, i, k);
      if dst + i <= k < dst + i + b { MovedAt(was, dst, src, i, src + k - dst); }
    }
  }

  method MoveUp<T>(a: array<T>, dst: nat, src: nat, n: nat, cell: nat)
    requires CellSize(cell, n) && src < dst && dst + n <= a.Length
    modifies a
    ensures a[..] == Moved(old(a[..]), dst, src, n)
  {
    hide Moved;
    ghost var was := a[..];
    var b16, b8, b4 := Cells(16, cell), Cells(8, cell), Cells(4, cell);
    var i := n;
    NothingMoved(was, dst + n, src + n);
    while i >= b16
      invariant 0 <= i <= n && (cell == 1 ==> i % 4 == 0)
      invariant a[..] == Moved(was, dst + i, src + i, n - i)
    {
      MovedUpMore(was, dst, src, n, i, b16);
      i := i - b16;
      CopyBlock(a, dst + i, src + i, b16);
    }
    if i >= b8 {
      MovedUpMore(was, dst, src, n, i, b8);
      i := i - b8;
      CopyBlock(a, dst + i, src + i, b8);
    }
    if b4 > 0 && i >= b4 {
      MovedUpMore(was, dst, src, n, i, b4);
      CopyBlock(a, dst, src, b4);
    }
  }

  lemma NothingMoved<T>(was: seq<T>, dst: nat, src: nat)
    requires dst <= |was| && src <= |was|
    ensures Moved(was, dst, src, 0) == was
  {
  }

  method MoveDown<T>(a: array<T>, dst: nat, src: nat, n: nat, cell: nat)
    requires CellSize(cell, n) && dst < src && src + n <= a.Length
    modifies a
    ensures a[..] == Moved(old(a[..]), dst, src, n)
  {
    hide Moved;
    ghost var was := a[..];
    var b16, b8, b4 := Cells(16, cell), Cells(8, cell), Cells(4, cell);
    var i := 0;
    NothingMoved(was, dst, src);
    while i + b16 <= n
      invariant 0 <= i <= n && (cell == 1 ==> i % 4 == 0)
      invariant a[..] == Moved(was, dst, src, i)
    {
      MovedDownMore(was, dst, src, i, b16);
      CopyBlock(a, dst + i, src + i, b16);
      i := i + b16;
    }
    if i + b8 <= n {
      MovedDownMore(was, dst, src, i, b8);
      CopyBlock(a, dst + i, src + i, b8);
      i := i + b8;
    }
    if b4 > 0 && i + b4 <= n {
      MovedDownMore(was, dst, src, i, b4);
      CopyBlock(a, dst + i, src + i, b4);
    }
  }

  /** a[pos .. pos+count) -> a[pos+1 .. pos+count+1), for elements of 4 or 8 bytes. */
  method ShiftUp<T>(a: array<T>, pos: nat, count: nat, cell: nat)
    requires (cell == 4 || cell == 8) && pos + count + 1 <= a.Length
    modifies a
    ensures forall i :: 0 <= i < pos || pos + count < i < a.Length ==> a[i] == old(a[i])
    ensures forall i :: pos < i <= pos + count ==> a[i] == old(a[i - 1])
  {
    MoveUp(a, pos + 1, pos, count, cell);
    forall i | 0 <= i < a.Length ensures a[i] == Moved(old(a[..]), pos + 1, pos, count)[i] {
      assert a[i] == a[..][i];
    }
  }

  /** a[pos+1 .. pos+count+1) -> a[pos .. pos+count) */
  method ShiftDown<T>(a: array<T>, pos: nat, count: nat, cell: nat)
    requires (cell == 4 || cell == 8) && pos + count + 1 <= a.Length
    modifies a
    ensures forall i :: 0 <= i < pos || pos + count <= i < a.Length ==> a[i] == old(a[i])
    ensures forall i :: pos <= i < pos + count ==> a[i] == old(a[i + 1])
  {
    MoveDown(a, pos, pos + 1, count, cell);
    forall i | 0 <= i < a.Length ensures a[i] == Moved(old(a[..]), pos, pos + 1, count)[i] {
      assert a[i] == a[..][i];
    }
  }
}
