/**
 Drawing the codewords onto the modules of a symbol.
 */
module Placement {
  import opened Gf256
  import opened Bits
  import opened Grids
  import opened Zigzag

  predicate Buffers(modules: array2<bool>, isFunction: array2<bool>, size: int) {
    && modules.Length0 == modules.Length1 == size
    && isFunction.Length0 == isFunction.Length1 == size
    && modules != isFunction
  }

  /** What the scan has done after visiting some of the modules: the bits that had an unmarked module
      to go to are in place, in order. */
  ghost predicate ScanState(before: Grid, now: Grid, marked: Grid, n: int, visited: seq<Pos>, bits: seq<bool>, i: nat)
    requires Square(before, n) && Square(now, n) && Square(marked, n)
  {
    && (forall p :: p in visited ==> InGrid(p, n))
    && NoDuplicates(visited)
    && var open := Open(marked, n, visited);
       i == (if |open| < |bits| then |open| else |bits|) && PlacedIn(before, now, n, open, bits[..i])
  }

  ghost predicate PlacedIn(before: Grid, after: Grid, n: int, modules: seq<Pos>, bits: seq<bool>)
    requires Square(before, n) && Square(after, n)
  {
    (forall p :: p in modules ==> InGrid(p, n)) && Placed(before, after, n, modules, bits)
  }

  lemma PlacedExtends(before: Grid, now: Grid, next: Grid, n: int, open: seq<Pos>, p: Pos, bits: seq<bool>, bit: bool)
    requires Square(before, n) && Square(now, n) && Square(next, n)
    requires PlacedIn(before, now, n, open, bits) && |open| == |bits| && p !in open && InGrid(p, n)
    requires Get(next, n, p) == bit && forall q :: InGrid(q, n) && q != p ==> Get(next, n, q) == Get(now, n, q)
    ensures PlacedIn(before, next, n, open + [p], bits + [bit])
  {
    var modules := open + [p];
    assert open[..|bits|] == open && modules[..|bits| + 1] == modules;
  }

  lemma PlacedStays(before: Grid, now: Grid, n: int, open: seq<Pos>, p: Pos, bits: seq<bool>)
    requires Square(before, n) && Square(now, n)
    requires PlacedIn(before, now, n, open, bits) && InGrid(p, n)
    ensures PlacedIn(before, now, n, open + [p], bits)
  {
    assert (open + [p])[..|bits|] == open[..|bits|];
  }

  lemma OpenSnoc(marked: Grid, n: int, visited: seq<Pos>, p: Pos)
    requires Square(marked, n) && (forall q :: q in visited ==> InGrid(q, n)) && InGrid(p, n)
    ensures Open(marked, n, visited + [p]) == Open(marked, n, visited) + if Get(marked, n, p) then [] else [p]
  {
    assert (visited + [p])[..|visited|] == visited;
  }

  /** One step of the scan. */
  lemma ScanStateStep(before: Grid, now: Grid, next: Grid, marked: Grid, n: int, visited: seq<Pos>,
                      bits: seq<bool>, i: nat, p: Pos)
    requires Square(before, n) && Square(now, n) && Square(next, n) && Square(marked, n)
    requires ScanState(before, now, marked, n, visited, bits, i)
    requires InGrid(p, n) && p !in visited
    requires var put := !Get(marked, n, p) && i < |bits|;
             if put then Get(next, n, p) == bits[i] &&
                     forall q :: InGrid(q, n) && q != p ==> Get(next, n, q) == Get(now, n, q)
             else next == now
    ensures ScanState(before, next, marked, n, visited + [p], bits,
                      if !Get(marked, n, p) && i < |bits| then i + 1 else i)
  {
    hide Placed;
    OpenSnoc(marked, n, visited, p);
    OpenMembers(marked, n, visited);
    var open := Open(marked, n, visited);
    if !Get(marked, n, p) {
      if i < |bits| {
        PlacedExtends(before, now, next, n, open, p, bits[..i], bits[i]);
        assert bits[..i + 1] == bits[..i] + [bits[i]];
      } else {
        PlacedStays(before, now, n, open, p, bits[..i]);
      }
    } else {
      assert open + [] == open;
    }
  }

  lemma StartState(before: Grid, marked: Grid, n: int, bits: seq<bool>)
    requires Square(before, n) && Square(marked, n)
    ensures ScanState(before, before, marked, n, [], bits, 0)
  {
    assert Open(marked, n, []) == [];
  }

  lemma PairStep(size: int, right: int, vert: int)
    requires vert < size
    ensures PairScan(size, right, vert)
         == [Cell(size, right, vert, 0), Cell(size, right, vert, 1)] + PairScan(size, right, vert + 1)
  {
  }

  lemma ScanEnds(size: int, right: int, vert: int)
    ensures vert >= size ==> PairScan(size, right, vert) == []
    ensures right < 1 ==> ScanFrom(size, right) == []
  {
  }

  /** The next module of the scan is in the grid and has not been visited. */
  lemma NextCell(size: int, visited: seq<Pos>, cells: seq<Pos>, more: seq<Pos>)
    requires ValidSize(size) && visited + (cells + more) == Scan(size) && cells != []
    ensures InGrid(cells[0], size) && cells[0] !in visited
    ensures (visited + [cells[0]]) + (cells[1..] + more) == Scan(size)
  {
    hide Scan, NoDuplicates;
    ScanIsBijection(size);
    var s, k := Scan(size), |visited|;
    assert s[k] == cells[0];
    assert s[k] in s;
    Earlier(s, k);
    assert s[..k] == visited;
  }

  lemma Earlier(s: seq<Pos>, k: nat)
    requires NoDuplicates(s) && k < |s|
    ensures s[k] !in s[..k]
  {
  }

  /** The innermost body of the scan. */
  method DrawBit(modules: array2<bool>, isFunction: array2<bool>, size: int, data: seq<Byte>, x: int, y: int, i: nat,
                 ghost before: Grid, ghost visited: seq<Pos>) returns (i': nat)
    requires Buffers(modules, isFunction, size) && Square(before, size)
    requires InGrid(Pos(x, y), size) && Pos(x, y) !in visited
    requires ScanState(before, Contents(modules), Contents(isFunction), size, visited, Unpack(data), i)
    modifies modules
    ensures ScanState(before, Contents(modules), Contents(isFunction), size, visited + [Pos(x, y)], Unpack(data), i')
  {
    hide ScanState, Unpack, Bit;
    ghost var now, marked, p := Contents(modules), Contents(isFunction), Pos(x, y);
    i' := i;
    if !isFunction[y, x] && i < |data| * 8 {
      UnpackAt(data, i);
      GetBit(data[i / 8], 7 - i % 8);
      modules[y, x] := Bit(data[i / 8], 7 - i % 8);
      i' := i + 1;
    } else {
      GridsEqual(now, Contents(modules), size);
    }
    assert Get(marked, size, p) == isFunction[y, x];
    ScanStateStep(before, now, Contents(modules), marked, size, visited, Unpack(data), i, p);
  }

  /** One column pair of the scan; `rest` is what the scan visits after it. */
  method PlacePair(modules: array2<bool>, isFunction: array2<bool>, size: int, data: seq<Byte>, right: int, i: nat,
                   ghost before: Grid, ghost visited: seq<Pos>, ghost rest: seq<Pos>)
      returns (i': nat, ghost visited': seq<Pos>)
    requires ValidSize(size) && Buffers(modules, isFunction, size) && Square(before, size) && 1 <= right < size
    requires visited + (PairScan(size, right, 0) + rest) == Scan(size)
    requires ScanState(before, Contents(modules), Contents(isFunction), size, visited, Unpack(data), i)
    modifies modules
    ensures visited' + rest == Scan(size)
    ensures Contents(isFunction) == old(Contents(isFunction))
    ensures ScanState(before, Contents(modules), Contents(isFunction), size, visited', Unpack(data), i')
  {
    hide ScanState, PairScan, Scan, Contents, Unpack;
    ghost var marked, bits := Contents(isFunction), Unpack(data);
    i', visited' := i, visited;
    var vert := 0;
    while vert < size
      invariant 0 <= vert <= size && Contents(isFunction) == marked
      invariant visited' + (PairScan(size, right, vert) + rest) == Scan(size)
      invariant ScanState(before, Contents(modules), marked, size, visited', bits, i')
    {
      PairStep(size, right, vert);
      ghost var cells := [Cell(size, right, vert, 0), Cell(size, right, vert, 1)];
      ghost var more := PairScan(size, right, vert + 1) + rest;
      assert cells[0..] == cells;
      assert cells + PairScan(size, right, vert + 1) + rest == cells + more;
      var j := 0;
      while j < 2
        invariant 0 <= j <= 2 && Contents(isFunction) == marked
        invariant visited' + (cells[j..] + more) == Scan(size)
        invariant ScanState(before, Contents(modules), marked, size, visited', bits, i')
      {
        var x := right - j;
        var upward := (right + 1) / 2 % 2 == 0;
        var y := if upward then size - 1 - vert else vert;
        assert cells[j..][0] == Pos(x, y) && cells[j..][1..] == cells[j + 1..];
        NextCell(size, visited', cells[j..], more);
        i' := DrawBit(modules, isFunction, size, data, x, y, i', before, visited');
        visited' := visited' + [Pos(x, y)];
        j := j + 1;
      }
      assert cells[2..] + more == more;
      vert := vert + 1;
    }
    ScanEnds(size, right, size);
    assert [] + rest == rest;
  }

  /** The source's drawCodewords for any odd size: returns how many bits found a module. */
  method PlaceCodewords(modules: array2<bool>, isFunction: array2<bool>, size: int, data: seq<Byte>) returns (i: nat)
    requires ValidSize(size) && Buffers(modules, isFunction, size)
    modifies modules
    ensures Contents(isFunction) == old(Contents(isFunction))
    ensures var open := DataModules(Contents(isFunction), size);
            && i == (if |open| < 8 * |data| then |open| else 8 * |data|)
            && PlacedIn(old(Contents(modules)), Contents(modules), size, open, Unpack(data)[..i])
  {
    hide ScanState, PairScan, ScanFrom, Contents, Unpack, DataModules;
    ghost var before, marked, bits := Contents(modules), Contents(isFunction), Unpack(data);
    ghost var visited: seq<Pos> := [];
    i := 0;
    StartState(before, marked, size, bits);
    var right := size - 1;
    while right >= 1
      invariant ScanColumn(size, right)
      invariant Contents(isFunction) == marked
      invariant visited + ScanFrom(size, right) == Scan(size)
      invariant ScanState(before, Contents(modules), marked, size, visited, bits, i)
    {
      ScanStep(size, right);
      if right == 6 {
        right := 5;
      }
      i, visited := PlacePair(modules, isFunction, size, data, right, i, before, visited, ScanFrom(size, right - 2));
      right := right - 2;
    }
    ScanEnds(size, right, size);
    assert visited + [] == visited;
    FinalState(before, Contents(modules), marked, size, visited, bits, i);
  }

  lemma FinalState(before: Grid, now: Grid, marked: Grid, n: int, visited: seq<Pos>, bits: seq<bool>, i: nat)
    requires ValidSize(n) && Square(before, n) && Square(now, n) && Square(marked, n)
    requires ScanState(before, now, marked, n, visited, bits, i) && visited == Scan(n)
    ensures var open := DataModules(marked, n);
            i == (if |open| < |bits| then |open| else |bits|) && PlacedIn(before, now, n, open, bits[..i])
  {
  }

  /** Reading the modules in scan order gives back what was placed. */
  lemma ReadBack(before: Grid, after: Grid, marked: Grid, n: int, bits: seq<bool>)
    requires ValidSize(n) && Square(before, n) && Square(after, n) && Square(marked, n)
    requires PlacedIn(before, after, n, DataModules(marked, n), bits)
    ensures bits <= ReadBits(after, marked, n)
  {
    hide DataModules;
    var read := ReadBits(after, marked, n);
    forall k | 0 <= k < |bits|
      ensures read[k] == bits[k]
    {
    }
  }
}
